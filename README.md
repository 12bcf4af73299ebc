# Result pipeline of the project browser, in Dafny

This project models the result pipeline of `src/store/results/Sagas.ts`. The
pipeline turns the list of project records into the ordered list the browser
shows, in four stages run one after the other by `applyFilters`:

1. **Dimension filter** (`applyTagFilters`, module `TagFilter`, pure). The
   selected filters are grouped by dimension with a fold. Each project then
   runs a loop over the enumerated dimensions. A dimension matches when the
   project has one of its selected values: OR within a dimension. Every
   dimension that has selected filters must match: AND across dimensions. The
   loop stops at the first failing dimension. The loop's `match` flag starts
   false, so when no enumerated dimension has a selected filter, every project
   is dropped. The model keeps that behaviour.
2. **Title filter** (`applyTitleSearchFilter`, module `TitleFilter`, pure). A
   case-insensitive substring search on the project name.
3. **Bucketing** (`splitIntoBuckets`, module `Buckets`, imperative). A method
   with the source's nested loops over a map from bucket name to list. The
   buckets are "Khronos Official", "Staff Picks" and "UNTAGGED".
   - A project without a tag list gets one entry, in "UNTAGGED".
   - A project with a tag list gets one entry per tag. The entry goes in the
     tag's bucket when one exists, and in "UNTAGGED" otherwise.
   - So a project with an empty tag list lands in no bucket.
   - A project with a priority tag and another tag lands in two buckets.

   A project therefore does not always land in exactly one bucket. The
   model follows the code.
4. **Sort and flatten** (`applySort`, module `Sorting`, imperative). Each
   bucket is sorted in an array with the source's comparator, taken verbatim.
   The buckets are appended in priority order.

Module `Pipeline` composes the stages as `applyFilters` does. Supporting
modules:

- `Text`: ASCII case folds, JavaScript's string `<` and `includes`.
- `Sequences`: an order-preserving `Filter` and the notion of a selection.
- `Projects`: the project record and the `project[dimension]` lookup.

The enumeration of filter dimensions lives in a file that is not part of this
model. It is a parameter, `dimensions`, a sequence of dimension names.

The comparator as written is not a consistent order. It uses the lower-case
fold for "less" and the upper-case fold for "greater". The two folds disagree
on the characters between 'Z' and 'a' (`[ \ ] ^ _` and the backquote), and
`Sorting.ComparatorInconsistent` shows this on "_" and "a". The sort is
therefore specified as an engine-independent outcome:

- the result is a permutation of the bucket;
- no neighbouring pair is one that the comparator puts the other way round;
- on names free of those six characters, the result is sorted by
  case-insensitive name.

## Model

| member | source | states |
|---|---|---|
| Text.Lower | src/store/results/Sagas.ts:73-75 | lower-casing keeps the length, leaves no upper-case ASCII letter, and changes exactly the upper-case letters |
| Text.Upper | src/store/results/Sagas.ts:112 | upper-casing keeps the length, leaves no lower-case ASCII letter, and changes exactly the lower-case letters |
| Text.Less | src/store/results/Sagas.ts:111-112 | string `<` never holds between equal strings, and a proper prefix is smaller than the string it begins |
| Text.Includes | src/store/results/Sagas.ts:75 | `includes` never finds a needle longer than the string, and always finds the empty needle |
| Text.LessFirstDifference | src/store/results/Sagas.ts:111-112 | string `<` holds iff, at the first position where the strings differ, the left one has ended while the right goes on, or has the smaller character |
| Text.LessIrreflexive | src/store/results/Sagas.ts:111-112 | JavaScript's string `<` never holds between a string and itself |
| Text.LessAsymmetric | src/store/results/Sagas.ts:111-112 | string `<` never holds both ways |
| Text.LessTransitive | src/store/results/Sagas.ts:111-112 | string `<` is transitive |
| Text.LessTotal | src/store/results/Sagas.ts:111-112 | any two strings are equal or ordered one way by `<` |
| Text.NotLessTransitive | src/store/results/Sagas.ts:111-112 | "not after" (`!(b < a)`) is transitive, so it can serve as a sort order |
| Text.FoldsAgree | src/store/results/Sagas.ts:111-112 | on names without characters between 'Z' and 'a', comparing lower-cased and comparing upper-cased forms give the same answer |
| Text.LowerOfUpper | src/store/results/Sagas.ts:73-75 | lower-casing an upper-cased string gives the lower-cased string |
| Text.IncludesIffOccurs | src/store/results/Sagas.ts:75 | the `includes` scan succeeds iff the needle occurs at some position of the string |
| Sequences.Filter | src/store/results/Sagas.ts:42 | `filter` keeps exactly the elements of the input that pass the test, and is no longer than its input |
| Sequences.FilterIsSelection | src/store/results/Sagas.ts:42-63 | `filter`'s result is the input with positions dropped, in strictly increasing order of position, and every passing position is kept |
| Projects.Field | src/store/results/Sagas.ts:49-51 | `project[dimension]` is the tag list for the tags dimension, otherwise the project's value list of that name, and absent when the project has none |
| TagFilter.GroupFilters | src/store/results/Sagas.ts:29-40 | the grouped map has a key for exactly the dimensions that have a selected filter |
| TagFilter.GroupFiltersInOrder | src/store/results/Sagas.ts:29-40 | each dimension's list holds exactly that dimension's selected filters, in selection order |
| TagFilter.MatchFrom | src/store/results/Sagas.ts:43-62 | the per-project loop ends true only if `match` started true or some enumerated dimension has a selected filter |
| TagFilter.ApplyTagFilters | src/store/results/Sagas.ts:20-64 | the stage returns no more projects than it was given, and only projects of its input |
| TagFilter.MatchFromMeaning | src/store/results/Sagas.ts:43-62 | the per-project loop ends true iff `match` started true or some enumerated dimension has filters, and every enumerated dimension with filters has a matching value |
| TagFilter.TagFilterSelects | src/store/results/Sagas.ts:42-63 | with a non-empty selection the stage keeps, in order, exactly the projects for which some enumerated dimension is selected and every selected enumerated dimension has a selected value present |
| TagFilter.TagFilterMembership | src/store/results/Sagas.ts:20-64 | a project is in the result iff it is in the input and the selection is empty or the project satisfies that condition |
| TagFilter.TagFilterEmptyIsIdentity | src/store/results/Sagas.ts:24-26 | an empty selection returns the input unchanged |
| TagFilter.TagFilterIsSelection | src/store/results/Sagas.ts:42-63 | the result is a subsequence of the input: nothing added, duplicated or reordered |
| TagFilter.NoEnumeratedDimensionDropsAll | src/store/results/Sagas.ts:43-62 | a non-empty selection whose dimensions are all outside the enumeration drops every project, because `match` stays false |
| TagFilter.CategoryScenario | src/store/results/Sagas.ts:45-59 | a filter `category = Shader` keeps the project listing `Shader` under `category` and drops the one listing `Viewer` |
| TitleFilter.ApplyTitleSearchFilter | src/store/results/Sagas.ts:66-77 | every project the title stage returns is in its input |
| TitleFilter.TitleSearchAbsentIsIdentity | src/store/results/Sagas.ts:70-72 | an absent or empty search string returns the input unchanged |
| TitleFilter.TitleSearchSelects | src/store/results/Sagas.ts:73-76 | with a non-empty search string the stage keeps, in order, exactly the projects whose lower-cased name contains the lower-cased search string at some position |
| TitleFilter.TitleSearchIsSelection | src/store/results/Sagas.ts:74-76 | the result is a subsequence of the input |
| TitleFilter.TitleSearchIgnoresCase | src/store/results/Sagas.ts:73 | a search string and its upper-cased form select the same projects |
| Buckets.Route | src/store/results/Sagas.ts:95-99 | a tag's entry goes to the tag's own bucket when a bucket has that name, and to "UNTAGGED" otherwise |
| Buckets.SplitIntoBuckets | src/store/results/Sagas.ts:79-104 | the result has exactly the three bucket keys, and each bucket holds each project, in input order, once per entry it has for that bucket |
| Buckets.Distribute | src/store/results/Sagas.ts:88-101 | handling one project extends the buckets of the projects before it to the buckets including it |
| Buckets.CountRoutedSum | src/store/results/Sagas.ts:94-100 | a project's tags give exactly one entry each, over the three buckets |
| Buckets.BucketSizes | src/store/results/Sagas.ts:80-101 | the three bucket sizes add up to one entry per untagged project plus one per tag of each tagged project |
| Buckets.BucketCount | src/store/results/Sagas.ts:88-101 | a bucket holds a project as many times as the input does, times the project's number of entries for that bucket |
| Buckets.BucketMembership | src/store/results/Sagas.ts:88-101 | a project is in a bucket iff it is in the input and has an entry for that bucket |
| Buckets.BucketAppend | src/store/results/Sagas.ts:88-101 | bucketing a concatenation concatenates the buckets, so input order is kept within each bucket |
| Buckets.TagPlacement | src/store/results/Sagas.ts:94-100 | each tag of a tagged project puts the project in the tag's own bucket when one exists, otherwise in "UNTAGGED" |
| Buckets.UntaggedGoesToUntaggedOnly | src/store/results/Sagas.ts:89-92 | a project without a tag list is in "UNTAGGED" and in no priority bucket |
| Buckets.EmptyTagsInNoBucket | src/store/results/Sagas.ts:94-100 | a project whose tag list is empty is in no bucket |
| Buckets.MixedTagsLandTwice | src/store/results/Sagas.ts:94-100 | a project tagged "Staff Picks" and "Sample" is in both "Staff Picks" and "UNTAGGED" |
| Sorting.Compare | src/store/results/Sagas.ts:110-114 | the comparator answers -1, 0 or 1, and 0 for two projects of the same name |
| Sorting.CompareAntisymmetric | src/store/results/Sagas.ts:110-114 | the comparator never puts a before b and b before a |
| Sorting.ComparatorInconsistent | src/store/results/Sagas.ts:111-112 | the comparator calls "_" smaller than "a" but calls "a" equal to "_" |
| Sorting.SortByName | src/store/results/Sagas.ts:110-114 | sorting a bucket in place permutes it and leaves no neighbouring pair the comparator orders the other way |
| Sorting.InsertAt | src/store/results/Sagas.ts:110-114 | one insertion step permutes the array, extends its ordered prefix by one element, and leaves the rest of the array unchanged |
| Sorting.CompareOnSafeNames | src/store/results/Sagas.ts:110-114 | on names without characters between 'Z' and 'a', the comparator says "not after" iff the lower-cased names are not out of order |
| Sorting.AdjacentOrderedIsSorted | src/store/results/Sagas.ts:110-114 | on such names, no neighbouring inversion means sorted by case-insensitive name throughout |
| Sorting.ApplySort | src/store/results/Sagas.ts:106-119 | the result is "Khronos Official", then "Staff Picks", then "UNTAGGED", each segment a sorted permutation of its bucket, and its length is the sum of the bucket lengths |
| Sorting.GroupedMembers | src/store/results/Sagas.ts:109-116 | every project of the sorted result comes from one of the three buckets |
| Sorting.GroupedSortedOnSafeNames | src/store/results/Sagas.ts:109-116 | on such names each segment of the result is sorted by case-insensitive name |
| Pipeline.ApplyFilters | src/store/results/Sagas.ts:132-138 | the pipeline's result is the sorted, grouped buckets of the projects that pass both filters, one entry per bucket entry, and only projects of the input |
| Pipeline.NoFiltersKeepAll | src/store/results/Sagas.ts:132-136 | with no selected filter and no search string both filters return the input, whatever the enumerated dimensions |
| Pipeline.OneTagOneBucket | src/store/results/Sagas.ts:94-97 | a project with a single priority tag has one entry, in that tag's bucket |
| Pipeline.NoTagsUntagged | src/store/results/Sagas.ts:89-91 | a project without a tag list has one entry, in "UNTAGGED" |
| Pipeline.ThreeBucketScenario | src/store/results/Sagas.ts:132-138 | Zeta (staff pick), Apple (official) and Mango (no tags) come out as Apple, Zeta, Mango |
| Pipeline.SingletonBuckets | src/store/results/Sagas.ts:109-116 | when every bucket holds one project, the result is those projects in priority order |

## Left out

- The redux-saga plumbing is left out. It covers reading the projects, selection and search string from the store, publishing the result, and the `takeEvery`/`debounce(500)` triggers (src/store/results/Sagas.ts:121-150). It is event dispatch and timing, not pipeline logic. `Pipeline.ApplyFilters` takes the three inputs as parameters and returns the result.
- Text.Less, Sorting.Compare: strings are sequences of Unicode scalar values, so `<` compares code points. JavaScript compares UTF-16 code units. The two orders differ when one name has a character above U+FFFF where the other has one in U+E000..U+FFFF. Names using only characters up to U+FFFF compare alike.
- Locale- and Unicode-aware case mapping (`toLowerCase`, `toLocaleLowerCase`, `toLocaleUpperCase`) is replaced by the ASCII fold of 'A'..'Z' and 'a'..'z'.
- Sorting.SortByName: the engine's `Array.prototype.sort` algorithm is not modelled, and with the inconsistent comparator its outcome is engine-defined. An insertion sort with the same comparator stands in for it. The contract states only a permutation with no neighbouring pair out of order. Full sortedness is proved only for names without characters between 'Z' and 'a'.
- Sorting.ApplySort: `applySort` sorts the caller's bucket arrays in place. The model copies each bucket into a fresh array and sorts that, so the caller's buckets are not seen to change.
- Property lookups that hit JavaScript's object prototype are not modelled. Examples are a tag named "constructor" in `results[tag]`, or such a dimension name in the grouped filters. Tags and dimensions are plain keys.
- The selected filters are a sequence, in the order `Array.from` gives the set. A JavaScript `Set` of objects deduplicates by identity, so two equal filters may both appear. The model allows this too.
- The `FilterDimension` enumeration and the `IProjectInfo`/`IFilter` types are not part of this model. Dimensions are a parameter. A project is a name, an optional tag list, and a map from other dimension names to optional value lists. A project reads dimension "tags" from its tag list.
- JavaScript truthiness is modelled as presence. An empty tag list or value list is truthy, so it counts as present, and an absent one counts as missing.
