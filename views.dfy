/**
 * Filtered views: a backing sequence seen through a predicate. A view is never
 * stored; it is recomputed from the backing sequence and the current predicate.
 * `FilteredIndices` gives the same view as positions in the backing sequence.
 */
module Views {

  /** Extending a prefix by one element. */
  lemma PrefixStep<T>(s: seq<T>, k: nat)
    requires k < |s|
    ensures s[..k + 1] == s[..k] + [s[k]]
  {
  }

  /** Strictly increasing, hence free of repetitions. */
  predicate Increasing(r: seq<nat>)
  {
    forall a, b :: 0 <= a < b < |r| ==> r[a] < r[b]
  }

  /** The elements of `s` that satisfy `p`, in their order in `s`. */
  function Filter<T(!new)>(s: seq<T>, p: T -> bool): (r: seq<T>)
    ensures |r| <= |s|
    ensures forall x {:trigger x in r} :: x in r <==> x in s && p(x)
    decreases |s|
  {
    if s == [] then []
    else
      var init := s[..|s| - 1];
      assert s == init + [s[|s| - 1]];
      Filter(init, p) + (if p(s[|s| - 1]) then [s[|s| - 1]] else [])
  }

  /** The positions in `s` of the elements that satisfy `p`, in increasing order. */
  function FilteredIndices<T>(s: seq<T>, p: T -> bool): (r: seq<nat>)
    ensures forall k :: 0 <= k < |r| ==> r[k] < |s|
    ensures Increasing(r)
    ensures forall i: nat :: i in r <==> i < |s| && p(s[i])
    decreases |s|
  {
    if s == [] then []
    else FilteredIndices(s[..|s| - 1], p) + (if p(s[|s| - 1]) then [|s| - 1] else [])
  }

  /** The elements of `s` at the positions `idx`, in the order of `idx`. */
  function Select<T>(s: seq<T>, idx: seq<nat>): (r: seq<T>)
    requires forall k :: 0 <= k < |idx| ==> idx[k] < |s|
    ensures |r| == |idx|
    ensures forall k :: 0 <= k < |idx| ==> r[k] == s[idx[k]]
  {
    seq(|idx|, k requires 0 <= k < |idx| => s[idx[k]])
  }

  /** The conjunction of two predicates. */
  function Both<T(!new)>(p: T -> bool, q: T -> bool): (r: T -> bool)
    ensures forall x :: r(x) == (p(x) && q(x))
  {
    x => p(x) && q(x)
  }

  /** The elements at the filtered positions are the filtered elements. */
  lemma {:induction false} SelectFilteredIndices<T(!new)>(s: seq<T>, p: T -> bool)
    ensures Select(s, FilteredIndices(s, p)) == Filter(s, p)
  {
    if s != [] {
      var n := |s| - 1;
      var init := s[..n];
      SelectFilteredIndices(init, p);
      var idx := FilteredIndices(init, p);
      var picked := Select(s, idx);
      assert picked == Select(init, idx) by {
        forall k | 0 <= k < |idx| ensures picked[k] == Select(init, idx)[k] {
          assert idx[k] < n;
        }
      }
      if p(s[n]) {
        assert Select(s, idx + [n]) == picked + [s[n]];
      } else {
        assert FilteredIndices(s, p) == idx;
      }
    }
  }

  /** Filtering twice is filtering once by both predicates. */
  lemma {:induction false} FilterBoth<T(!new)>(s: seq<T>, p: T -> bool, q: T -> bool)
    ensures Filter(Filter(s, p), q) == Filter(s, Both(p, q))
  {
    if s != [] {
      var init := s[..|s| - 1];
      FilterBoth(init, p, q);
      var f := Filter(s, p);
      var x := s[|s| - 1];
      assert Both(p, q)(x) == (p(x) && q(x));
      if p(x) {
        assert f == Filter(init, p) + [x];
        assert f[..|f| - 1] == Filter(init, p) && f[|f| - 1] == x;
      } else {
        assert f == Filter(init, p);
      }
    }
  }

  /** A predicate that holds everywhere on `s` shows all of `s`. */
  lemma {:induction false} FilterAll<T(!new)>(s: seq<T>, p: T -> bool)
    requires forall i :: 0 <= i < |s| ==> p(s[i])
    ensures Filter(s, p) == s
  {
    if s != [] {
      FilterAll(s[..|s| - 1], p);
    }
  }

  /** Two increasing sequences with the same elements are equal. */
  lemma {:induction false} IncreasingUnique(a: seq<nat>, b: seq<nat>)
    requires Increasing(a) && Increasing(b)
    requires forall x :: x in a <==> x in b
    ensures a == b
  {
    if a != [] { assert a[0] in b; }
    if b != [] { assert b[0] in a; }
    if a != [] && b != [] {
      assert a[0] == b[0];
      forall x
        ensures x in a[1..] <==> x in b[1..]
      {
        assert x in a[1..] <==> x in a && x != a[0];
        assert x in b[1..] <==> x in b && x != b[0];
      }
      IncreasingUnique(a[1..], b[1..]);
      assert a == [a[0]] + a[1..];
      assert b == [b[0]] + b[1..];
    }
  }
}
