/** Python list comprehensions as the extractors use them:
    `[x for x in xs if keep(x)]` and `[f(x) for x in xs]` where evaluating
    `f(x)` may raise, in which case the whole comprehension raises. */
module Comprehensions {
  import opened Wrappers

  /** `[x for x in xs if keep(x)]`: the kept items, in their order. */
  function Filter<T>(xs: seq<T>, keep: T -> bool): (ys: seq<T>)
    ensures |ys| <= |xs|
    ensures forall k :: 0 <= k < |ys| ==> keep(ys[k])
    ensures forall k :: 0 <= k < |ys| ==> ys[k] in xs
    ensures forall k :: 0 <= k < |xs| && keep(xs[k]) ==> xs[k] in ys
  {
    if |xs| == 0 then []
    else (if keep(xs[0]) then [xs[0]] else []) + Filter(xs[1..], keep)
  }

  /** Filtering distributes over concatenation, so relative order is kept. */
  lemma {:induction false} FilterAppend<T>(xs: seq<T>, ys: seq<T>, keep: T -> bool)
    ensures Filter(xs + ys, keep) == Filter(xs, keep) + Filter(ys, keep)
    decreases |xs|
  {
    if |xs| == 0 {
      assert xs + ys == ys;
    } else {
      assert (xs + ys)[1..] == xs[1..] + ys;
      FilterAppend(xs[1..], ys, keep);
    }
  }

  /** Nothing is dropped when every item is kept. */
  lemma {:induction false} FilterAll<T>(xs: seq<T>, keep: T -> bool)
    requires forall k :: 0 <= k < |xs| ==> keep(xs[k])
    ensures Filter(xs, keep) == xs
    decreases |xs|
  {
    if |xs| > 0 {
      FilterAll(xs[1..], keep);
    }
  }

  /** `[f(x) for x in xs]` where `f` may raise: succeeds exactly when `f`
      succeeds on every item, with one result per item in order, and
      otherwise raises what `f` raised on the first item it failed on. */
  function MapAll<T, U, E>(xs: seq<T>, f: T -> Result<U, E>): (r: Result<seq<U>, E>)
    ensures r.Success? <==> forall k :: 0 <= k < |xs| ==> f(xs[k]).Success?
    ensures r.Success? ==> |r.value| == |xs|
    ensures r.Success? ==> forall k :: 0 <= k < |xs| ==> r.value[k] == f(xs[k]).value
    ensures r.Failure? ==> exists k :: 0 <= k < |xs| && f(xs[k]) == Failure(r.error)
                                      && forall j :: 0 <= j < k ==> f(xs[j]).Success?
  {
    if |xs| == 0 then Success([])
    else
      var y :- f(xs[0]);
      var ys :- MapAll(xs[1..], f);
      Success([y] + ys)
  }
}
