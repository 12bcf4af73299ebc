/** Stage 4 of the pipeline (`applySort`): sort each bucket by name with
    the source's comparator and concatenate the buckets in priority order. */
module Sorting {
  import opened Projects
  import opened Text
  import opened Buckets

  /** The comparator handed to `sort`, as written: -1 when the lower-cased
      names are in order, else 1 when the upper-cased names are out of
      order, else 0. */
  function Compare(a: Project, b: Project): (r: int)
    ensures -1 <= r <= 1
    ensures a.name == b.name ==> r == 0
  {
    LessIrreflexive(Lower(a.name));
    LessIrreflexive(Upper(a.name));
    if Less(Lower(a.name), Lower(b.name)) then -1
    else if Less(Upper(b.name), Upper(a.name)) then 1
    else 0
  }

  /** The comparator never says both "a after b" and "b after a". */
  lemma CompareAntisymmetric(a: Project, b: Project)
    ensures Compare(a, b) > 0 ==> Compare(b, a) <= 0
  {
    LessAsymmetric(Upper(b.name), Upper(a.name));
  }

  /** No neighbouring pair is out of order under the comparator. */
  predicate AdjacentOrdered(s: seq<Project>) {
    forall i :: 0 < i < |s| ==> Compare(s[i - 1], s[i]) <= 0
  }

  /** Names are non-decreasing under case-insensitive comparison. */
  predicate NameOrdered(s: seq<Project>) {
    forall i, j :: 0 <= i < j < |s| ==> !Less(Lower(s[j].name), Lower(s[i].name))
  }

  /** Sorts one bucket in place. The engine's sort algorithm is not
      modelled; this insertion sort with the same comparator is one
      admissible outcome: a permutation with no neighbouring pair the
      comparator puts the other way round. */
  method SortByName(a: array<Project>)
    modifies a
    ensures multiset(a[..]) == old(multiset(a[..]))
    ensures AdjacentOrdered(a[..])
  {
    for i := 0 to a.Length
      invariant multiset(a[..]) == old(multiset(a[..]))
      invariant OrderedWithin(a[..], 0, i)
    {
      InsertAt(a, i);
    }
  }

  /** Neighbouring pairs inside `s[lo..hi]` are in order. */
  predicate OrderedWithin(s: seq<Project>, lo: nat, hi: nat)
    requires lo <= hi <= |s|
  {
    forall k :: lo < k < hi ==> Compare(s[k - 1], s[k]) <= 0
  }

  /** While `s[i]`'s original element, now at `j`, moves left: the parts
      before and from `j` are in order, and the elements either side of
      `j` are in order with each other. */
  predicate Inserting(s: seq<Project>, i: nat, j: nat)
    requires j <= i < |s|
  {
    && OrderedWithin(s, 0, j)
    && OrderedWithin(s, j, i + 1)
    && (0 < j < i ==> Compare(s[j - 1], s[j + 1]) <= 0)
  }

  lemma InsertingStep(s: seq<Project>, i: nat, j: nat)
    requires 0 < j <= i < |s| && Inserting(s, i, j) && Compare(s[j - 1], s[j]) > 0
    ensures Inserting(s[j - 1 := s[j]][j := s[j - 1]], i, j - 1)
  {
    CompareAntisymmetric(s[j - 1], s[j]);
  }

  lemma InsertingDone(s: seq<Project>, i: nat, j: nat)
    requires j <= i < |s| && Inserting(s, i, j)
    requires j == 0 || Compare(s[j - 1], s[j]) <= 0
    ensures OrderedWithin(s, 0, i + 1)
  {
  }

  /** Moves `a[i]` left past the neighbours the comparator puts after it,
      extending the ordered prefix `a[..i]` to `a[..i + 1]`. */
  method InsertAt(a: array<Project>, i: nat)
    requires i < a.Length
    requires OrderedWithin(a[..], 0, i)
    modifies a
    ensures multiset(a[..]) == old(multiset(a[..]))
    ensures OrderedWithin(a[..], 0, i + 1)
    ensures a[i + 1..] == old(a[i + 1..])
  {
    var j := i;
    while 0 < j && Compare(a[j - 1], a[j]) > 0
      invariant 0 <= j <= i
      invariant multiset(a[..]) == old(multiset(a[..]))
      invariant Inserting(a[..], i, j)
      invariant forall k :: i < k < a.Length ==> a[k] == old(a[k])
    {
      ghost var s := a[..];
      InsertingStep(s, i, j);
      Swap(a, j - 1);
      assert a[..] == s[j - 1 := s[j]][j := s[j - 1]];
      j := j - 1;
    }
    InsertingDone(a[..], i, j);
    assert a[i + 1..] == old(a[i + 1..]);
  }

  /** Exchanges the neighbours at `i` and `i + 1`. */
  method Swap(a: array<Project>, i: nat)
    requires i + 1 < a.Length
    modifies a
    ensures a[i] == old(a[i + 1]) && a[i + 1] == old(a[i])
    ensures forall k :: 0 <= k < a.Length && k != i && k != i + 1 ==> a[k] == old(a[k])
    ensures multiset(a[..]) == old(multiset(a[..]))
  {
    a[i], a[i + 1] := a[i + 1], a[i];
  }

  /** For names without characters between 'Z' and 'a', "not after" under
      the comparator is "not after" under the lower-case fold. */
  lemma CompareOnSafeNames(a: Project, b: Project)
    requires CaseSafe(a.name) && CaseSafe(b.name)
    ensures Compare(a, b) <= 0 <==> !Less(Lower(b.name), Lower(a.name))
  {
    FoldsAgree(b.name, a.name);
    LessAsymmetric(Lower(a.name), Lower(b.name));
  }

  /** On such names a bucket with no neighbouring inversion is sorted
      throughout. */
  lemma {:induction false} AdjacentOrderedIsSorted(s: seq<Project>)
    requires AdjacentOrdered(s)
    requires forall p :: p in s ==> CaseSafe(p.name)
    ensures NameOrdered(s)
  {
    if |s| > 1 {
      var n := |s| - 1;
      var prefix := s[..n];
      assert AdjacentOrdered(prefix);
      AdjacentOrderedIsSorted(prefix);
      CompareOnSafeNames(s[n - 1], s[n]);
      forall i, j | 0 <= i < j < |s|
        ensures !Less(Lower(s[j].name), Lower(s[i].name))
      {
        if j < n {
          assert prefix[i] == s[i] && prefix[j] == s[j];
        } else if i == n - 1 {
        } else {
          assert prefix[i] == s[i] && prefix[n - 1] == s[n - 1];
          NotLessTransitive(Lower(s[i].name), Lower(s[n - 1].name), Lower(s[n].name));
        }
      }
    }
  }

  /** The comparator as written is inconsistent: it calls "_" smaller than
      "a" but "a" equal to "_". */
  lemma ComparatorInconsistent()
    ensures Compare(Project("_", None, map[]), Project("a", None, map[])) == -1
    ensures Compare(Project("a", None, map[]), Project("_", None, map[])) == 0
  {
    var u := Project("_", None, map[]);
    var a := Project("a", None, map[]);
    assert Lower(u.name) == "_" && Lower(a.name) == "a";
    assert Upper(u.name) == "_" && Upper(a.name) == "A";
  }

  /** `seg` is bucket `bucket` reordered by the sort. */
  predicate SortedPermutationOf(seg: seq<Project>, bucket: seq<Project>) {
    multiset(seg) == multiset(bucket) && AdjacentOrdered(seg)
  }

  predicate HasAllBuckets(buckets: map<string, seq<Project>>) {
    forall k :: k in BucketOrder ==> k in buckets
  }

  /** `results` is the three buckets, each sorted, concatenated in the
      order "Khronos Official", "Staff Picks", "UNTAGGED". */
  predicate Grouped(results: seq<Project>, buckets: map<string, seq<Project>>)
    requires HasAllBuckets(buckets)
  {
    var n0 := |buckets[KhronosOfficial]|;
    var n1 := |buckets[StaffPicks]|;
    var n2 := |buckets[Untagged]|;
    && |results| == n0 + n1 + n2
    && SortedPermutationOf(results[..n0], buckets[KhronosOfficial])
    && SortedPermutationOf(results[n0..n0 + n1], buckets[StaffPicks])
    && SortedPermutationOf(results[n0 + n1..], buckets[Untagged])
  }

  function Concat(segments: seq<seq<Project>>): seq<Project> {
    if segments == [] then []
    else Concat(segments[..|segments| - 1]) + segments[|segments| - 1]
  }

  /** `applySort`: sort each bucket, then append it, priority buckets
      first and the untagged bucket last. */
  method ApplySort(buckets: map<string, seq<Project>>) returns (results: seq<Project>)
    requires HasAllBuckets(buckets)
    ensures Grouped(results, buckets)
  {
    results := [];
    ghost var segments: seq<seq<Project>> := [];
    for t := 0 to |BucketOrder|
      invariant |segments| == t
      invariant results == Concat(segments)
      invariant forall j :: 0 <= j < t ==> SortedPermutationOf(segments[j], buckets[BucketOrder[j]])
    {
      var bucket := buckets[BucketOrder[t]];
      var a := new Project[|bucket|](i requires 0 <= i < |bucket| => bucket[i]);
      assert a[..] == bucket;
      SortByName(a);
      ghost var before := segments;
      results := results + a[..];
      segments := segments + [a[..]];
      assert segments[..t] == before;
    }
    GroupedFromSegments(results, buckets, segments);
  }

  lemma GroupedFromSegments(results: seq<Project>, buckets: map<string, seq<Project>>, segments: seq<seq<Project>>)
    requires HasAllBuckets(buckets)
    requires |segments| == |BucketOrder| && results == Concat(segments)
    requires forall j :: 0 <= j < |BucketOrder| ==> SortedPermutationOf(segments[j], buckets[BucketOrder[j]])
    ensures Grouped(results, buckets)
  {
    var s0, s1, s2 := segments[0], segments[1], segments[2];
    assert SortedPermutationOf(s0, buckets[KhronosOfficial]);
    assert SortedPermutationOf(s1, buckets[StaffPicks]);
    assert SortedPermutationOf(s2, buckets[Untagged]);
    SameLength(s0, buckets[KhronosOfficial]);
    SameLength(s1, buckets[StaffPicks]);
    SameLength(s2, buckets[Untagged]);
    ConcatThree(segments);
    SliceThree(s0, s1, s2);
  }

  lemma SameLength(seg: seq<Project>, bucket: seq<Project>)
    requires multiset(seg) == multiset(bucket)
    ensures |seg| == |bucket|
  {
    assert |multiset(seg)| == |multiset(bucket)|;
  }

  lemma ConcatThree(segments: seq<seq<Project>>)
    requires |segments| == 3
    ensures Concat(segments) == segments[0] + segments[1] + segments[2]
  {
    assert segments[..1][..0] == [];
    assert Concat(segments[..1]) == segments[0];
    assert segments[..2][..1] == segments[..1];
    assert Concat(segments[..2]) == segments[0] + segments[1];
    assert segments[..2] == segments[..|segments| - 1];
  }

  lemma SliceThree(s0: seq<Project>, s1: seq<Project>, s2: seq<Project>)
    ensures var r := s0 + s1 + s2;
      && r[..|s0|] == s0
      && r[|s0|..|s0| + |s1|] == s1
      && r[|s0| + |s1|..] == s2
  {
  }

  /** Every sorted result comes from one of the buckets. */
  lemma GroupedMembers(results: seq<Project>, buckets: map<string, seq<Project>>, x: Project)
    requires HasAllBuckets(buckets) && Grouped(results, buckets)
    requires x in results
    ensures x in buckets[KhronosOfficial] || x in buckets[StaffPicks] || x in buckets[Untagged]
  {
    var n0 := |buckets[KhronosOfficial]|;
    var n1 := |buckets[StaffPicks]|;
    assert results == results[..n0] + results[n0..n0 + n1] + results[n0 + n1..];
    if x in results[..n0] {
      assert x in multiset(results[..n0]);
    } else if x in results[n0..n0 + n1] {
      assert x in multiset(results[n0..n0 + n1]);
    } else {
      assert x in multiset(results[n0 + n1..]);
    }
  }

  /** On names without characters between 'Z' and 'a', each of the three
      segments of the result is sorted by case-insensitive name. */
  lemma GroupedSortedOnSafeNames(results: seq<Project>, buckets: map<string, seq<Project>>)
    requires HasAllBuckets(buckets) && Grouped(results, buckets)
    requires forall k, p :: k in BucketOrder && p in buckets[k] ==> CaseSafe(p.name)
    ensures
      var n0 := |buckets[KhronosOfficial]|;
      var n1 := |buckets[StaffPicks]|;
      && NameOrdered(results[..n0])
      && NameOrdered(results[n0..n0 + n1])
      && NameOrdered(results[n0 + n1..])
  {
    var n0 := |buckets[KhronosOfficial]|;
    var n1 := |buckets[StaffPicks]|;
    SegmentSorted(results[..n0], buckets[KhronosOfficial]);
    SegmentSorted(results[n0..n0 + n1], buckets[StaffPicks]);
    SegmentSorted(results[n0 + n1..], buckets[Untagged]);
  }

  lemma SegmentSorted(seg: seq<Project>, bucket: seq<Project>)
    requires SortedPermutationOf(seg, bucket)
    requires forall p :: p in bucket ==> CaseSafe(p.name)
    ensures NameOrdered(seg)
  {
    forall p | p in seg
      ensures CaseSafe(p.name)
    {
      assert p in multiset(seg);
    }
    AdjacentOrderedIsSorted(seg);
  }
}
