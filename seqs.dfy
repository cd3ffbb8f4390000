/** Python list idioms used throughout the model: `xs.index(x)` guarded by
    `x in xs`, list comprehensions with a condition, and `chain(*lists)`. */
module Seqs {

  predicate Distinct<T(==)>(xs: seq<T>) {
    forall i, j :: 0 <= i < j < |xs| ==> xs[i] != xs[j]
  }

  /** `xs.index(x) if x in xs else -1`: the first position of `x`. */
  function IndexOf<T(==)>(xs: seq<T>, x: T): (r: int)
    ensures -1 <= r < |xs|
    ensures r == -1 <==> x !in xs
    ensures 0 <= r ==> xs[r] == x && forall j :: 0 <= j < r ==> xs[j] != x
  {
    if xs == [] then -1
    else if xs[0] == x then 0
    else
      var r := IndexOf(xs[1..], x);
      if r == -1 then -1 else r + 1
  }

  lemma IndexOfDistinct<T>(xs: seq<T>, k: nat)
    requires Distinct(xs) && k < |xs|
    ensures IndexOf(xs, xs[k]) == k
  {
  }

  /** `[x for x in xs if keep(x)]`. */
  function Filter<T>(xs: seq<T>, keep: T -> bool): (r: seq<T>)
    ensures |r| <= |xs|
    ensures forall k :: 0 <= k < |r| ==> keep(r[k])
    decreases |xs|
  {
    if xs == [] then []
    else if keep(xs[0]) then [xs[0]] + Filter(xs[1..], keep)
    else Filter(xs[1..], keep)
  }

  /** An element survives the filter exactly when it is kept and present. */
  lemma {:induction false} FilterMembership<T>(xs: seq<T>, keep: T -> bool, x: T)
    ensures x in Filter(xs, keep) <==> x in xs && keep(x)
    decreases |xs|
  {
    if xs != [] {
      FilterMembership(xs[1..], keep, x);
      assert xs == [xs[0]] + xs[1..];
    }
  }

  lemma {:induction false} FilterAppend<T>(xs: seq<T>, ys: seq<T>, keep: T -> bool)
    ensures Filter(xs + ys, keep) == Filter(xs, keep) + Filter(ys, keep)
    decreases |xs|
  {
    if xs != [] {
      assert (xs + ys)[0] == xs[0];
      assert (xs + ys)[1..] == xs[1..] + ys;
      FilterAppend(xs[1..], ys, keep);
      if keep(xs[0]) {
        assert Filter(xs + ys, keep) == [xs[0]] + Filter(xs[1..] + ys, keep);
      } else {
        assert Filter(xs + ys, keep) == Filter(xs[1..] + ys, keep);
      }
    } else {
      assert xs + ys == ys;
    }
  }

  /** Filtering keeps any pairwise order the input had: the survivors keep
      their relative positions. */
  lemma {:induction false} FilterOrdered<T>(xs: seq<T>, keep: T -> bool, before: (T, T) -> bool)
    requires forall i, j :: 0 <= i < j < |xs| ==> before(xs[i], xs[j])
    ensures forall i, j :: 0 <= i < j < |Filter(xs, keep)| ==> before(Filter(xs, keep)[i], Filter(xs, keep)[j])
    decreases |xs|
  {
    if xs != [] {
      var rest := xs[1..];
      FilterOrdered(rest, keep, before);
      if keep(xs[0]) {
        var tail := Filter(rest, keep);
        var r := [xs[0]] + tail;
        forall i, j | 0 <= i < j < |r|
          ensures before(r[i], r[j])
        {
          if i == 0 {
            assert r[j] == tail[j - 1];
            FilterMembership(rest, keep, r[j]);
            var k :| 0 <= k < |rest| && rest[k] == r[j];
            assert r[0] == xs[0] && xs[k + 1] == rest[k];
            assert before(xs[0], xs[k + 1]);
          } else {
            assert r[i] == tail[i - 1] && r[j] == tail[j - 1];
          }
        }
      }
    }
  }

  /** `list(chain(*lists))`. */
  function Flatten<T>(lists: seq<seq<T>>): (r: seq<T>)
    decreases |lists|
  {
    if lists == [] then [] else lists[0] + Flatten(lists[1..])
  }

  lemma {:induction false} FlattenMembership<T>(lists: seq<seq<T>>, x: T)
    ensures x in Flatten(lists) <==> exists k :: 0 <= k < |lists| && x in lists[k]
    decreases |lists|
  {
    if lists != [] {
      FlattenMembership(lists[1..], x);
      if x in Flatten(lists[1..]) {
        var k :| 0 <= k < |lists[1..]| && x in lists[1..][k];
        assert x in lists[k + 1];
      }
      if exists k :: 0 <= k < |lists| && x in lists[k] {
        var k :| 0 <= k < |lists| && x in lists[k];
        if k > 0 {
          assert x in lists[1..][k - 1];
        }
      }
    }
  }
}
