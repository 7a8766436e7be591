/** Sequence helpers used by the validators, resolvers and filters. */
module Lists {
  import opened Outcomes

  /** `set(xs)` in Python. */
  function ToSet<T>(xs: seq<T>): set<T> {
    set x | x in xs
  }

  /** Index of the first element satisfying `p`, the result of a Python
      `for x in xs: if p(x): ...` loop that stops at the first hit. */
  function FirstWhere<T>(xs: seq<T>, p: T -> bool): (r: Option<nat>)
    ensures r.Some? ==> r.value < |xs| && p(xs[r.value])
    ensures r.Some? ==> forall j :: 0 <= j < r.value ==> !p(xs[j])
    ensures r.None? <==> forall j :: 0 <= j < |xs| ==> !p(xs[j])
  {
    if xs == [] then None
    else if p(xs[0]) then Some(0)
    else match FirstWhere(xs[1..], p)
      case None => None
      case Some(i) => Some(i + 1)
  }

  /** The indexes of the elements satisfying `p`, in increasing order. */
  function Where<T>(xs: seq<T>, p: T -> bool): (idx: seq<nat>)
    ensures |idx| <= |xs|
    ensures forall k :: 0 <= k < |idx| ==> idx[k] < |xs|
    ensures forall k, l :: 0 <= k < l < |idx| ==> idx[k] < idx[l]
    ensures forall i: nat :: i in idx <==> i < |xs| && p(xs[i])
  {
    if xs == [] then []
    else
      var n := |xs| - 1;
      var front := Where(xs[..n], p);
      assert forall i :: 0 <= i < n ==> xs[..n][i] == xs[i];
      front + (if p(xs[n]) then [n] else [])
  }

  /** When every element satisfies `p`, every index is selected. */
  lemma {:induction false} WhereAll<T>(xs: seq<T>, p: T -> bool)
    requires forall i :: 0 <= i < |xs| ==> p(xs[i])
    ensures |Where(xs, p)| == |xs|
    ensures forall k :: 0 <= k < |xs| ==> Where(xs, p)[k] == k
  {
    if xs != [] {
      var n := |xs| - 1;
      assert forall i :: 0 <= i < n ==> xs[..n][i] == xs[i];
      WhereAll(xs[..n], p);
      assert Where(xs, p) == Where(xs[..n], p) + [n];
    }
  }

  /** `[f(x) for x in xs if p(x)]`: the images of the elements satisfying
      `p`, in order, one per element. */
  function MapWhere<T(!new), U(!new)>(xs: seq<T>, p: T -> bool, f: T -> U): (r: seq<U>)
    ensures |r| == |Where(xs, p)|
    ensures forall k :: 0 <= k < |r| ==> r[k] == f(xs[Where(xs, p)[k]])
    ensures forall y :: y in r <==> exists x :: x in xs && p(x) && f(x) == y
  {
    if xs == [] then []
    else
      var n := |xs| - 1;
      var front := MapWhere(xs[..n], p, f);
      assert forall i :: 0 <= i < n ==> xs[..n][i] == xs[i];
      assert forall x :: x in xs <==> x == xs[n] || x in xs[..n];
      front + (if p(xs[n]) then [f(xs[n])] else [])
  }

  /** `xs` is obtained from `ys` by deleting elements, keeping the order. */
  predicate IsSubsequence<T(==)>(xs: seq<T>, ys: seq<T>)
    decreases |ys|
  {
    || xs == []
    || (&& ys != []
        && ((xs[0] == ys[0] && IsSubsequence(xs[1..], ys[1..])) || IsSubsequence(xs, ys[1..])))
  }

  /** A subsequence only holds elements of the sequence it was taken from. */
  lemma {:induction false} SubsequenceElements<T>(xs: seq<T>, ys: seq<T>)
    requires IsSubsequence(xs, ys)
    ensures |xs| <= |ys|
    ensures forall x :: x in xs ==> x in ys
    decreases |ys|
  {
    if xs == [] {
    } else if IsSubsequence(xs, ys[1..]) {
      SubsequenceElements(xs, ys[1..]);
    } else {
      SubsequenceElements(xs[1..], ys[1..]);
      assert forall x :: x in xs ==> x == xs[0] || x in xs[1..];
    }
  }
}
