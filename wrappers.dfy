/** Failure-carrying values for the reader's exceptions, and the first-error
    traversal that every "for x in xs: ...; may raise" loop of the reader follows. */
module Wrappers {

  datatype Option<+T> = None | Some(value: T)

  datatype Result<+R, +E> = Ok(value: R) | Err(error: E) {
    predicate IsFailure() { Err? }

    function PropagateFailure<U>(): Result<U, E>
      requires Err?
    {
      Err(error)
    }

    function Extract(): R
      requires Ok?
    {
      value
    }
  }

  /** Pass or the first failure found (a check that only raises). */
  datatype Outcome<+E> = Pass | Fail(error: E)

  /** `a` if it failed, else `b`: the second check runs only after the first passed. */
  function Then<E>(a: Outcome<E>, b: Outcome<E>): Outcome<E>
  {
    if a.Fail? then a else b
  }

  /** Applies `f` to every element in order and stops at the first error,
      as a Python loop that appends results and lets an exception escape. */
  function MapAll<A, B, E>(xs: seq<A>, f: A -> Result<B, E>): Result<seq<B>, E>
    decreases |xs|
  {
    if xs == [] then Ok([])
    else
      var done :- MapAll(xs[..|xs| - 1], f);
      var y :- f(xs[|xs| - 1]);
      Ok(done + [y])
  }

  /** One more loop step: how MapAll of a longer prefix follows from the shorter one. */
  lemma MapAllSnoc<A, B, E>(xs: seq<A>, x: A, f: A -> Result<B, E>)
    ensures MapAll(xs + [x], f) ==
      match MapAll(xs, f)
      case Err(e) => Err(e)
      case Ok(ys) => (match f(x) case Err(e) => Err(e) case Ok(y) => Ok(ys + [y]))
  {
    assert (xs + [x])[..|xs|] == xs;
  }

  /** Once a prefix has failed, the whole traversal fails with that error. */
  lemma {:induction false} MapAllPrefixError<A, B, E>(xs: seq<A>, ys: seq<A>, f: A -> Result<B, E>)
    requires MapAll(xs, f).Err?
    ensures MapAll(xs + ys, f) == Err(MapAll(xs, f).error)
  {
    if ys == [] {
      assert xs + ys == xs;
    } else {
      var init := ys[..|ys| - 1];
      MapAllPrefixError(xs, init, f);
      assert xs + ys == (xs + init) + [ys[|ys| - 1]];
      MapAllSnoc(xs + init, ys[|ys| - 1], f);
    }
  }

  /** Success means every element succeeded, and the results are pointwise. */
  lemma {:induction false} MapAllOk<A, B, E>(xs: seq<A>, f: A -> Result<B, E>)
    ensures MapAll(xs, f).Ok? <==> forall i :: 0 <= i < |xs| ==> f(xs[i]).Ok?
    ensures MapAll(xs, f).Ok? ==>
      |MapAll(xs, f).value| == |xs| &&
      forall i :: 0 <= i < |xs| ==> f(xs[i]) == Ok(MapAll(xs, f).value[i])
    decreases |xs|
  {
    if xs != [] {
      var init := xs[..|xs| - 1];
      MapAllOk(init, f);
      assert forall i :: 0 <= i < |init| ==> xs[i] == init[i];
    }
  }

  /** Failure carries the error of the first element that failed. */
  lemma {:induction false} MapAllErr<A, B, E>(xs: seq<A>, f: A -> Result<B, E>)
    requires MapAll(xs, f).Err?
    ensures exists i :: 0 <= i < |xs| && f(xs[i]) == Err(MapAll(xs, f).error) &&
                        forall j :: 0 <= j < i ==> f(xs[j]).Ok?
    decreases |xs|
  {
    var init := xs[..|xs| - 1];
    assert forall i :: 0 <= i < |init| ==> xs[i] == init[i];
    if MapAll(init, f).Err? {
      MapAllErr(init, f);
      var i :| 0 <= i < |init| && f(init[i]) == Err(MapAll(init, f).error) &&
               forall j :: 0 <= j < i ==> f(init[j]).Ok?;
      assert f(xs[i]) == Err(MapAll(xs, f).error);
    } else {
      MapAllOk(init, f);
      assert f(xs[|xs| - 1]) == Err(MapAll(xs, f).error);
    }
  }

  /** One more element whose image is a value. */
  lemma MapAllSnocOk<A, B, E>(xs: seq<A>, x: A, f: A -> Result<B, E>, ys: seq<B>, y: B)
    requires MapAll(xs, f) == Ok(ys) && f(x) == Ok(y)
    ensures MapAll(xs + [x], f) == Ok(ys + [y])
  {
    MapAllSnoc(xs, x, f);
  }

  /** Extending a prefix taken from `s` by one element of `s`. */
  lemma PrefixSnoc<T>(p: seq<T>, s: seq<T>, j: nat)
    requires j < |s|
    ensures p + s[..j + 1] == (p + s[..j]) + [s[j]]
  {
    assert s[..j + 1] == s[..j] + [s[j]];
  }

  /** One more step of a traversal of `Range(n)`: a failing image is the result of
      the whole traversal, a value extends the values so far. */
  lemma MapAllRangeStep<B, E>(n: nat, k: nat, f: int -> Result<B, E>, ys: seq<B>)
    requires k < n && MapAll(Range(k), f) == Ok(ys)
    ensures f(k).Err? ==> MapAll(Range(n), f) == Err(f(k).error)
    ensures f(k).Ok? ==> MapAll(Range(k + 1), f) == Ok(ys + [f(k).value])
  {
    assert Range(k + 1) == Range(k) + [k];
    if f(k).Err? {
      assert Range(n) == Range(k) + [k] + Range(n)[k + 1..];
      MapAllStops(Range(k), k, Range(n)[k + 1..], f, f(k).error);
    } else {
      MapAllSnocOk(Range(k), k, f, ys, f(k).value);
    }
  }

  /** A loop that stops at the first failure: after an all-Ok prefix, a failing
      element decides the result whatever follows it. */
  lemma MapAllStops<A, B, E>(xs: seq<A>, x: A, rest: seq<A>, f: A -> Result<B, E>, e: E)
    requires MapAll(xs, f).Ok? && f(x) == Err(e)
    ensures MapAll(xs + [x] + rest, f) == Err(e)
  {
    MapAllSnoc(xs, x, f);
    MapAllPrefixError(xs + [x], rest, f);
  }

  /** `range(n)`. */
  function Range(n: nat): (r: seq<int>)
    ensures |r| == n && forall i :: 0 <= i < n ==> r[i] == i
  {
    seq(n, i requires 0 <= i < n => i)
  }

  /** MapAll over `range(n)`: all n results in order, or the first failure. */
  lemma {:induction false} MapAllRange<B, E>(n: nat, f: int -> Result<B, E>)
    ensures MapAll(Range(n), f).Ok? <==> forall i :: 0 <= i < n ==> f(i).Ok?
    ensures MapAll(Range(n), f).Ok? ==>
              |MapAll(Range(n), f).value| == n &&
              forall i :: 0 <= i < n ==> f(i) == Ok(MapAll(Range(n), f).value[i])
    ensures MapAll(Range(n), f).Err? ==>
              exists i :: 0 <= i < n && f(i) == Err(MapAll(Range(n), f).error) &&
                          forall j :: 0 <= j < i ==> f(j).Ok?
  {
    var xs := Range(n);
    MapAllOk(xs, f);
    if MapAll(xs, f).Err? {
      MapAllErr(xs, f);
      var i :| 0 <= i < |xs| && f(xs[i]) == Err(MapAll(xs, f).error) &&
               forall j :: 0 <= j < i ==> f(xs[j]).Ok?;
      assert xs[i] == i;
      forall j | 0 <= j < i
        ensures f(j).Ok?
      {
        assert xs[j] == j;
      }
    } else {
      forall i | 0 <= i < n
        ensures f(i).Ok?
      {
        assert xs[i] == i;
      }
    }
  }
}
