/** `Array.prototype.find` and `Array.prototype.filter`: the first element of a
    sequence that satisfies a test, used by the accordion's active-interval
    lookup and by both video/summary joins, and the order-preserving filter
    that stands for a store's `in` query. */
module Search {
  import opened Wrappers

  /** Position of the first element satisfying `p`, if any. */
  function FindIndex<T>(xs: seq<T>, p: T -> bool): (r: Option<nat>)
    ensures r.Some? ==> r.value < |xs| && p(xs[r.value])
    ensures r.Some? ==> forall j :: 0 <= j < r.value ==> !p(xs[j])
    ensures r.None? <==> forall j :: 0 <= j < |xs| ==> !p(xs[j])
  {
    if xs == [] then None
    else if p(xs[0]) then Some(0)
    else
      match FindIndex(xs[1..], p)
      case Some(k) => Some(k + 1)
      case None => None
  }

  /** The first element satisfying `p` (`undefined` when there is none). */
  function Find<T>(xs: seq<T>, p: T -> bool): (r: Option<T>)
    ensures r.Some? ==> p(r.value)
    ensures r.Some? ==> exists j :: 0 <= j < |xs| && xs[j] == r.value && forall k :: 0 <= k < j ==> !p(xs[k])
    ensures r.None? <==> forall j :: 0 <= j < |xs| ==> !p(xs[j])
  {
    match FindIndex(xs, p)
    case Some(k) => Some(xs[k])
    case None => None
  }

  /** The elements satisfying `keep`, in order. */
  function Filter<T>(xs: seq<T>, keep: T -> bool): (r: seq<T>)
    ensures |r| <= |xs|
    ensures forall i :: 0 <= i < |r| ==> keep(r[i])
    ensures forall j :: 0 <= j < |xs| && keep(xs[j]) ==> xs[j] in r
    ensures forall i :: 0 <= i < |r| ==> r[i] in xs
    ensures |xs| == 1 ==> r == if keep(xs[0]) then xs else []
  {
    if xs == [] then []
    else (if keep(xs[0]) then [xs[0]] else []) + Filter(xs[1..], keep)
  }

  /** Filtering distributes over concatenation; with the one-element case of
      `Filter`'s contract this fixes the kept elements and their order. */
  lemma {:induction false} FilterAppend<T>(a: seq<T>, b: seq<T>, keep: T -> bool)
    ensures Filter(a + b, keep) == Filter(a, keep) + Filter(b, keep)
    decreases |a|
  {
    if a == [] {
      assert a + b == b;
    } else {
      assert (a + b)[1..] == a[1..] + b;
      FilterAppend(a[1..], b, keep);
    }
  }

  /** A non-matching head does not change what `Find` returns. */
  lemma FindSkip<T>(x: T, ys: seq<T>, p: T -> bool)
    requires !p(x)
    ensures Find([x] + ys, p) == Find(ys, p)
  {
    assert ([x] + ys)[1..] == ys;
  }

  /** Filtering with a test that every match passes keeps the first match:
      narrowing a search to a superset of its hits changes nothing. */
  lemma {:induction false} FindFilter<T>(xs: seq<T>, keep: T -> bool, p: T -> bool)
    requires forall j :: 0 <= j < |xs| && p(xs[j]) ==> keep(xs[j])
    ensures Find(Filter(xs, keep), p) == Find(xs, p)
    decreases |xs|
  {
    if xs != [] {
      var rest := Filter(xs[1..], keep);
      if p(xs[0]) {
        assert Filter(xs, keep) == [xs[0]] + rest;
        assert Find(xs, p) == Some(xs[0]);
        assert Find([xs[0]] + rest, p) == Some(xs[0]);
      } else {
        FindFilter(xs[1..], keep, p);
        FindSkip(xs[0], xs[1..], p);
        assert [xs[0]] + xs[1..] == xs;
        if keep(xs[0]) {
          FindSkip(xs[0], rest, p);
        } else {
          assert Filter(xs, keep) == rest;
        }
      }
    }
  }

  /** `Array.prototype.map`. */
  function Map<T, U>(xs: seq<T>, f: T -> U): (r: seq<U>)
    ensures |r| == |xs|
    ensures forall i :: 0 <= i < |xs| ==> r[i] == f(xs[i])
  {
    seq(|xs|, i requires 0 <= i < |xs| => f(xs[i]))
  }

  /** Searching the images of a map finds the image of the first element
      whose image passes the test. */
  lemma {:induction false} FindIndexMap<T, U>(xs: seq<T>, f: T -> U, p: U -> bool, q: T -> bool)
    requires forall j :: 0 <= j < |xs| ==> q(xs[j]) == p(f(xs[j]))
    ensures FindIndex(Map(xs, f), p) == FindIndex(xs, q)
    decreases |xs|
  {
    if xs != [] {
      assert Map(xs, f)[1..] == Map(xs[1..], f);
      FindIndexMap(xs[1..], f, p, q);
    }
  }

  lemma FindMap<T, U>(xs: seq<T>, f: T -> U, p: U -> bool, q: T -> bool)
    requires forall j :: 0 <= j < |xs| ==> q(xs[j]) == p(f(xs[j]))
    ensures Find(Map(xs, f), p) == if Find(xs, q).Some? then Some(f(Find(xs, q).value)) else None
  {
    FindIndexMap(xs, f, p, q);
  }
}
