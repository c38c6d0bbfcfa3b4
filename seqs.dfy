/** Sequence helpers shared by the back end and the front end: the
    `Array.prototype.filter` that every list view and the interest toggle use. */
module Seqs {
  import opened Wrappers

  /** No element occurs twice. */
  ghost predicate NoDup<T>(xs: seq<T>) {
    forall i, j :: 0 <= i < j < |xs| ==> xs[i] != xs[j]
  }

  /** `xs.filter(keep)`: the elements for which `keep` holds, in their original order. */
  function Filter<T(!new)>(xs: seq<T>, keep: T -> bool): (r: seq<T>)
    ensures |r| <= |xs|
    ensures forall x :: x in r <==> x in xs && keep(x)
  {
    if |xs| == 0 then []
    else
      var init, last := xs[..|xs| - 1], xs[|xs| - 1];
      assert xs == init + [last];
      Filter(init, keep) + (if keep(last) then [last] else [])
  }

  /** The indices of `xs` whose elements `keep` accepts, in ascending order. */
  function Positions<T(!new)>(xs: seq<T>, keep: T -> bool): (ps: seq<nat>)
    ensures forall k :: 0 <= k < |ps| ==> ps[k] < |xs| && keep(xs[ps[k]])
    ensures forall j, k :: 0 <= j < k < |ps| ==> ps[j] < ps[k]
    ensures forall i :: 0 <= i < |xs| && keep(xs[i]) ==> i in ps
  {
    if |xs| == 0 then []
    else
      var n := |xs| - 1;
      var init := Positions(xs[..n], keep);
      assert forall k :: 0 <= k < |init| ==> xs[..n][init[k]] == xs[init[k]];
      if keep(xs[n]) then init + [n] else init
  }

  /** `r` holds exactly the elements of `xs` that `keep` accepts, in their order in
      `xs`: its k-th element is the element at the k-th accepted position. */
  ghost predicate SelectsInOrder<T(!new)>(r: seq<T>, xs: seq<T>, keep: T -> bool) {
    var ps := Positions(xs, keep);
    |r| == |ps| && forall k :: 0 <= k < |r| ==> r[k] == xs[ps[k]]
  }

  /** Filtering keeps exactly the accepted elements, in order, and nothing else. */
  lemma {:induction false} FilterSelectsInOrder<T(!new)>(xs: seq<T>, keep: T -> bool)
    ensures SelectsInOrder(Filter(xs, keep), xs, keep)
    decreases |xs|
  {
    if |xs| > 0 {
      var n := |xs| - 1;
      var init := xs[..n];
      FilterSelectsInOrder(init, keep);
      var f, p := Filter(init, keep), Positions(init, keep);
      assert xs == init + [xs[n]];
      var r, ps := Filter(xs, keep), Positions(xs, keep);
      var extra := if keep(xs[n]) then [xs[n]] else [];
      assert r == f + extra;
      assert ps == if keep(xs[n]) then p + [n] else p;
      assert |r| == |ps|;
      forall k | 0 <= k < |r|
        ensures r[k] == xs[ps[k]]
      {
        if k < |f| {
          assert r[k] == f[k] == init[p[k]];
          assert ps[k] == p[k];
        }
      }
    }
  }

  /** Filtering distributes over concatenation. */
  lemma {:induction false} FilterAppend<T(!new)>(a: seq<T>, b: seq<T>, keep: T -> bool)
    ensures Filter(a + b, keep) == Filter(a, keep) + Filter(b, keep)
    decreases |b|
  {
    if |b| == 0 {
      assert a + b == a;
    } else {
      var n := |b| - 1;
      assert (a + b)[..|a + b| - 1] == a + b[..n];
      FilterAppend(a, b[..n], keep);
    }
  }

  /** A filter that accepts every element returns the list unchanged. */
  lemma {:induction false} FilterAllKept<T(!new)>(xs: seq<T>, keep: T -> bool)
    requires forall i :: 0 <= i < |xs| ==> keep(xs[i])
    ensures Filter(xs, keep) == xs
    decreases |xs|
  {
    if |xs| > 0 {
      FilterAllKept(xs[..|xs| - 1], keep);
      assert xs == xs[..|xs| - 1] + [xs[|xs| - 1]];
    }
  }

  /** Filtering a duplicate-free list gives a duplicate-free list. */
  lemma FilterNoDup<T(!new)>(xs: seq<T>, keep: T -> bool)
    requires NoDup(xs)
    ensures NoDup(Filter(xs, keep))
  {
    var r, ps := Filter(xs, keep), Positions(xs, keep);
    FilterSelectsInOrder(xs, keep);
    forall j, k | 0 <= j < k < |r| ensures r[j] != r[k] {
      assert ps[j] < ps[k];
    }
  }

  /** The index of the first element `found` accepts, as `findOne` returns the first
      match in storage order. */
  function FirstIndex<T>(xs: seq<T>, found: T -> bool): (r: Option<nat>)
    ensures r.Some? ==> r.value < |xs| && found(xs[r.value])
    ensures r.Some? ==> forall i :: 0 <= i < r.value ==> !found(xs[i])
    ensures r.None? ==> forall i :: 0 <= i < |xs| ==> !found(xs[i])
  {
    if |xs| == 0 then None
    else if found(xs[0]) then Some(0)
    else
      match FirstIndex(xs[1..], found)
      case None => None
      case Some(i) => Some(i + 1)
  }
}
