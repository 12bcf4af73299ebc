/** `Array.prototype.filter` over sequences, and what it means for a list
    to be an order-preserving selection from another. */
module Sequences {

  /** Keeps, in their original order, the elements that satisfy `keep`. */
  function Filter<T(!new)>(s: seq<T>, keep: T -> bool): (r: seq<T>)
    ensures |r| <= |s|
    ensures forall x :: x in r <==> x in s && keep(x)
  {
    if s == [] then []
    else Filter(s[..|s| - 1], keep) + (if keep(s[|s| - 1]) then [s[|s| - 1]] else [])
  }

  /** `r` is `s` with some elements dropped: `idx` lists, in strictly
      increasing order, the positions of `s` that `r` keeps. */
  ghost predicate SelectionOf<T>(r: seq<T>, s: seq<T>, idx: seq<nat>) {
    && |idx| == |r|
    && (forall k :: 0 <= k < |idx| ==> idx[k] < |s| && r[k] == s[idx[k]])
    && (forall k, l :: 0 <= k < l < |idx| ==> idx[k] < idx[l])
  }

  /** Filtering never adds, duplicates or reorders elements, and it keeps
      every position whose element passes the test. */
  lemma {:induction false} FilterIsSelection<T(!new)>(s: seq<T>, keep: T -> bool) returns (idx: seq<nat>)
    ensures SelectionOf(Filter(s, keep), s, idx)
    ensures forall i :: 0 <= i < |s| && keep(s[i]) ==> i in idx
  {
    if s == [] {
      idx := [];
    } else {
      var n := |s| - 1;
      var prefix, last := s[..n], s[n];
      assert s == prefix + [last];
      var before := FilterIsSelection(prefix, keep);
      if keep(last) {
        SelectionSnoc(Filter(prefix, keep), prefix, before, last);
        idx := before + [n];
      } else {
        SelectionGrow(Filter(prefix, keep), prefix, before, last);
        idx := before;
      }
    }
  }

  /** Appending the same element to both lists extends a selection. */
  lemma SelectionSnoc<T>(r: seq<T>, s: seq<T>, idx: seq<nat>, x: T)
    requires SelectionOf(r, s, idx)
    ensures SelectionOf(r + [x], s + [x], idx + [|s|])
  {
  }

  /** Appending to the source list keeps a selection. */
  lemma SelectionGrow<T>(r: seq<T>, s: seq<T>, idx: seq<nat>, x: T)
    requires SelectionOf(r, s, idx)
    ensures SelectionOf(r, s + [x], idx)
  {
  }

  /** Two tests that agree on every element select the same list. */
  lemma {:induction false} FilterCongruent<T(!new)>(s: seq<T>, keep: T -> bool, keep': T -> bool)
    requires forall x :: x in s ==> keep(x) == keep'(x)
    ensures Filter(s, keep) == Filter(s, keep')
  {
    if s != [] {
      FilterCongruent(s[..|s| - 1], keep, keep');
    }
  }

  /** A test that everything fails selects nothing. */
  lemma {:induction false} FilterDropsAll<T(!new)>(s: seq<T>, keep: T -> bool)
    requires forall x :: x in s ==> !keep(x)
    ensures Filter(s, keep) == []
  {
    if s != [] {
      FilterDropsAll(s[..|s| - 1], keep);
    }
  }
}
