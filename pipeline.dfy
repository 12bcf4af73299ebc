/** The pipeline run by `applyFilters`: tag filter, title filter,
    bucketing, then sort and flatten. Reading the inputs from the store
    and publishing the result are left to the caller. */
module Pipeline {
  import opened Projects
  import opened TagFilter
  import opened TitleFilter
  import opened Buckets
  import opened Sorting

  /** The projects that survive both filters, in input order. */
  function Searched(projects: seq<Project>, selected: seq<SelectedFilter>, dimensions: seq<string>,
                    titleSubstring: Option<string>): seq<Project>
  {
    ApplyTitleSearchFilter(ApplyTagFilters(projects, selected, dimensions), titleSubstring)
  }

  /** One run of the pipeline. The result is the buckets of the searched
      projects, each sorted, in priority order; it holds one entry per
      bucket entry and only projects of the input. */
  method ApplyFilters(projects: seq<Project>, selected: seq<SelectedFilter>, dimensions: seq<string>,
                      titleSubstring: Option<string>) returns (results: seq<Project>)
    ensures Grouped(results, BucketsOf(Searched(projects, selected, dimensions, titleSubstring)))
    ensures |results| == EntryCount(Searched(projects, selected, dimensions, titleSubstring))
    ensures forall x :: x in results ==> x in projects
  {
    var filteredResults := ApplyTagFilters(projects, selected, dimensions);
    var searchedResults := ApplyTitleSearchFilter(filteredResults, titleSubstring);
    var bucketedResults := SplitIntoBuckets(searchedResults);
    assert bucketedResults == BucketsOf(searchedResults);
    results := ApplySort(bucketedResults);
    BucketSizes(searchedResults);
    forall x | x in results
      ensures x in projects
    {
      GroupedMembers(results, bucketedResults, x);
      BucketMembership(searchedResults, KhronosOfficial, x);
      BucketMembership(searchedResults, StaffPicks, x);
      BucketMembership(searchedResults, Untagged, x);
      TagFilterMembership(projects, selected, dimensions, x);
    }
  }

  /** A project with a single tag that names a bucket has one entry,
      in that bucket. */
  lemma OneTagOneBucket(p: Project, tag: string, k: string)
    requires p.tags == Some([tag]) && tag in BucketKeys
    ensures Bucket([p], k) == if k == tag then [p] else []
  {
    assert [p][..0] == [] && [tag][..0] == [];
    assert Route(tag) == tag;
    assert CountRouted([tag], k) == if k == tag then 1 else 0;
    assert Bucket([p], k) == Repeat(p, Multiplicity(p, k));
  }

  /** A project without a tag list has one entry, in the untagged bucket. */
  lemma NoTagsUntagged(p: Project, k: string)
    requires p.tags.None?
    ensures Bucket([p], k) == if k == Untagged then [p] else []
  {
    assert [p][..0] == [];
  }

  lemma BucketOfThree(a: Project, b: Project, c: Project, k: string)
    ensures Bucket([a, b, c], k) == Bucket([a], k) + Bucket([b], k) + Bucket([c], k)
  {
    assert [a, b, c] == [a] + [b] + [c];
    BucketAppend([a] + [b], [c], k);
    BucketAppend([a], [b], k);
  }

  /** One bucket of the scenario, built project by project. */
  lemma ScenarioBucket(zeta: Project, apple: Project, mango: Project, k: string)
    requires zeta.tags == Some([StaffPicks])
    requires apple.tags == Some([KhronosOfficial])
    requires mango.tags.None?
    ensures Bucket([zeta, apple, mango], k)
         == (if k == StaffPicks then [zeta] else []) + (if k == KhronosOfficial then [apple] else [])
          + (if k == Untagged then [mango] else [])
  {
    BucketOfThree(zeta, apple, mango, k);
    OneTagOneBucket(zeta, StaffPicks, k);
    OneTagOneBucket(apple, KhronosOfficial, k);
    NoTagsUntagged(mango, k);
  }

  /** Three projects for a run with no filters and no search string:
      "Zeta" is a staff pick, "Apple" is official, "Mango" has no tags. */
  const Zeta := Project("Zeta", Some([StaffPicks]), map[])
  const Apple := Project("Apple", Some([KhronosOfficial]), map[])
  const Mango := Project("Mango", None, map[])

  /** The run over Zeta, Apple and Mango yields Apple, Zeta, Mango. */
  method ThreeBucketScenario() returns (names: seq<string>)
    ensures names == ["Apple", "Zeta", "Mango"]
  {
    var results := ApplyFilters([Zeta, Apple, Mango], [], [], None);
    ScenarioResult(results);
    names := [results[0].name, results[1].name, results[2].name];
  }

  lemma ScenarioResult(results: seq<Project>)
    requires Grouped(results, BucketsOf(Searched([Zeta, Apple, Mango], [], [], None)))
    ensures results == [Apple, Zeta, Mango]
  {
    var projects := [Zeta, Apple, Mango];
    NoFiltersKeepAll(projects, []);
    ScenarioMap();
    SingletonBuckets(results, BucketsOf(projects), Apple, Zeta, Mango);
  }

  /** Without selected filters and without a search string both filters
      are the identity. */
  lemma NoFiltersKeepAll(projects: seq<Project>, dimensions: seq<string>)
    ensures Searched(projects, [], dimensions, None) == projects
  {
    TagFilterEmptyIsIdentity(projects, dimensions);
    TitleSearchAbsentIsIdentity(projects);
  }

  /** The buckets of Zeta, Apple and Mango. */
  lemma ScenarioMap()
    ensures var buckets := BucketsOf([Zeta, Apple, Mango]);
      && buckets[KhronosOfficial] == [Apple]
      && buckets[StaffPicks] == [Zeta]
      && buckets[Untagged] == [Mango]
  {
    ScenarioBucket(Zeta, Apple, Mango, KhronosOfficial);
    ScenarioBucket(Zeta, Apple, Mango, StaffPicks);
    ScenarioBucket(Zeta, Apple, Mango, Untagged);
  }

  /** When every bucket holds one project, the grouped result is those
      projects in bucket order. */
  lemma SingletonBuckets(results: seq<Project>, buckets: map<string, seq<Project>>, a: Project, b: Project, c: Project)
    requires HasAllBuckets(buckets)
    requires buckets[KhronosOfficial] == [a] && buckets[StaffPicks] == [b] && buckets[Untagged] == [c]
    requires Grouped(results, buckets)
    ensures results == [a, b, c]
  {
    SingletonSegment(results[..1], a);
    SingletonSegment(results[1..2], b);
    SingletonSegment(results[2..], c);
  }

  lemma SingletonSegment(seg: seq<Project>, p: Project)
    requires multiset(seg) == multiset([p])
    ensures seg == [p]
  {
    assert |seg| == |multiset(seg)| == 1;
    assert seg[0] in multiset(seg);
  }
}
