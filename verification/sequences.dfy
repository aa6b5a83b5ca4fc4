/** Sequence combinators the question pipeline is built from. */
module Sequences {
  import opened Wrappers

  /** `f` can be applied to every element of `xs`. */
  ghost predicate AppliesToAll<S, T>(xs: seq<S>, f: S --> Option<T>) {
    forall i :: 0 <= i < |xs| ==> f.requires(xs[i])
  }

  /** Apply `f` to each element and keep the `Some` values, in order. */
  function FilterMap<S, T>(xs: seq<S>, f: S --> Option<T>): (r: seq<T>)
    requires AppliesToAll(xs, f)
    ensures |r| <= |xs|
  {
    if |xs| == 0 then []
    else
      var prev := FilterMap(xs[..|xs| - 1], f);
      var res := f(xs[|xs| - 1]);
      if res.None? then prev else prev + [res.value]
  }

  /** Element `i` of `xs` is mapped to `Some(y)`. */
  ghost predicate MapsTo<S, T>(xs: seq<S>, f: S --> Option<T>, i: int, y: T) {
    0 <= i < |xs| && f.requires(xs[i]) && f(xs[i]) == Some(y)
  }

  /** Every kept value is the image of some element. */
  lemma {:induction false} FilterMapSound<S, T>(xs: seq<S>, f: S --> Option<T>)
    requires AppliesToAll(xs, f)
    ensures forall y :: y in FilterMap(xs, f) ==> exists i :: MapsTo(xs, f, i, y)
  {
    if |xs| > 0 {
      var n := |xs| - 1;
      var init := xs[..n];
      FilterMapSound(init, f);
      forall y | y in FilterMap(xs, f) ensures exists i :: MapsTo(xs, f, i, y) {
        if y in FilterMap(init, f) {
          var i :| MapsTo(init, f, i, y);
          assert init[i] == xs[i];
          assert MapsTo(xs, f, i, y);
        } else {
          assert MapsTo(xs, f, n, y);
        }
      }
    }
  }

  /** Every `Some` image is kept. */
  lemma {:induction false} FilterMapComplete<S, T>(xs: seq<S>, f: S --> Option<T>, i: nat)
    requires AppliesToAll(xs, f)
    requires i < |xs| && f(xs[i]).Some?
    ensures f(xs[i]).value in FilterMap(xs, f)
  {
    var n := |xs| - 1;
    if i < n {
      var init := xs[..n];
      assert init[i] == xs[i];
      FilterMapComplete(init, f, i);
    }
  }

  /** Filtering a concatenation concatenates the results: the order of `xs` is kept. */
  lemma {:induction false} FilterMapAppend<S, T>(a: seq<S>, b: seq<S>, f: S --> Option<T>)
    requires AppliesToAll(a, f) && AppliesToAll(b, f)
    ensures AppliesToAll(a + b, f)
    ensures FilterMap(a + b, f) == FilterMap(a, f) + FilterMap(b, f)
    decreases |b|
  {
    assert AppliesToAll(a + b, f) by {
      forall i | 0 <= i < |a + b| ensures f.requires((a + b)[i]) {
        if i >= |a| { assert (a + b)[i] == b[i - |a|]; }
      }
    }
    if |b| == 0 {
      assert a + b == a;
    } else {
      var initB := b[..|b| - 1];
      FilterMapAppend(a, initB, f);
      assert (a + b)[..|a + b| - 1] == a + initB;
      assert (a + b)[|a + b| - 1] == b[|b| - 1];
    }
  }

  /** `idx` lists, in increasing order, positions of `b` holding the elements of `a`. */
  ghost predicate Embeds<T>(idx: seq<nat>, a: seq<T>, b: seq<T>) {
    && |idx| == |a|
    && (forall k :: 0 <= k < |idx| ==> idx[k] < |b| && a[k] == b[idx[k]])
    && (forall k, l :: 0 <= k < l < |idx| ==> idx[k] < idx[l])
  }

  /** `a` can be obtained from `b` by deleting elements. */
  ghost predicate IsSubsequence<T>(a: seq<T>, b: seq<T>) {
    exists idx :: Embeds(idx, a, b)
  }

  lemma EmbedsExtend<T>(idx: seq<nat>, a: seq<T>, b: seq<T>, j: nat)
    requires Embeds(idx, a, b)
    requires j < |b|
    requires forall k :: 0 <= k < |idx| ==> idx[k] < j
    ensures Embeds(idx + [j], a + [b[j]], b)
  {
  }
}
