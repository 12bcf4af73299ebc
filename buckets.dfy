/** Stage 3 of the pipeline (`splitIntoBuckets`): distribute projects over
    the priority-tag buckets and the untagged bucket, one entry per tag. */
module Buckets {
  import opened Projects

  const KhronosOfficial: string := "Khronos Official"
  const StaffPicks: string := "Staff Picks"
  const Untagged: string := "UNTAGGED"

  /** Priority tags, highest priority first. */
  const TagPriority: seq<string> := [KhronosOfficial, StaffPicks]

  /** The bucket keys in the order the results are emitted. */
  const BucketOrder: seq<string> := TagPriority + [Untagged]

  const BucketKeys: set<string> := {KhronosOfficial, StaffPicks, Untagged}

  /** The bucket that receives the entry for one tag: the tag's own bucket
      when a bucket of that name exists, otherwise the untagged bucket. */
  function Route(tag: string): (k: string)
    ensures k in BucketKeys
    ensures k == tag || k == Untagged
    ensures tag in BucketKeys ==> k == tag
  {
    if tag in BucketKeys then tag else Untagged
  }

  /** How many of `tags` are routed to bucket `k`. */
  function CountRouted(tags: seq<string>, k: string): nat {
    if tags == [] then 0
    else CountRouted(tags[..|tags| - 1], k) + (if Route(tags[|tags| - 1]) == k then 1 else 0)
  }

  /** How many entries project `p` contributes to bucket `k`: one untagged
      entry when it has no tag list, otherwise one per routed tag. */
  function Multiplicity(p: Project, k: string): nat {
    match p.tags
    case None => if k == Untagged then 1 else 0
    case Some(tags) => CountRouted(tags, k)
  }

  /** The number of entries `p` contributes over all buckets. */
  function Weight(p: Project): nat {
    match p.tags
    case None => 1
    case Some(tags) => |tags|
  }

  function EntryCount(ps: seq<Project>): nat {
    if ps == [] then 0 else EntryCount(ps[..|ps| - 1]) + Weight(ps[|ps| - 1])
  }

  function Repeat(p: Project, n: nat): seq<Project> {
    seq(n, _ => p)
  }

  /** Bucket `k` after the projects `ps` have been distributed: each
      project, in input order, as many times as it has entries for `k`. */
  function Bucket(ps: seq<Project>, k: string): seq<Project> {
    if ps == [] then []
    else Bucket(ps[..|ps| - 1], k) + Repeat(ps[|ps| - 1], Multiplicity(ps[|ps| - 1], k))
  }

  function BucketsOf(ps: seq<Project>): map<string, seq<Project>> {
    map k | k in BucketKeys :: Bucket(ps, k)
  }

  /** `results` holds the buckets of `ps`. */
  ghost predicate Distributed(results: map<string, seq<Project>>, ps: seq<Project>) {
    && results.Keys == BucketKeys
    && results[KhronosOfficial] == Bucket(ps, KhronosOfficial)
    && results[StaffPicks] == Bucket(ps, StaffPicks)
    && results[Untagged] == Bucket(ps, Untagged)
  }

  /** `results` holds the buckets of `ps` plus the entries of project `p`
      for the tags `tags` seen so far. */
  ghost predicate PartlyDistributed(results: map<string, seq<Project>>, ps: seq<Project>, p: Project, tags: seq<string>) {
    && results.Keys == BucketKeys
    && results[KhronosOfficial] == Bucket(ps, KhronosOfficial) + Repeat(p, CountRouted(tags, KhronosOfficial))
    && results[StaffPicks] == Bucket(ps, StaffPicks) + Repeat(p, CountRouted(tags, StaffPicks))
    && results[Untagged] == Bucket(ps, Untagged) + Repeat(p, CountRouted(tags, Untagged))
  }

  /** `splitIntoBuckets`: start every bucket empty, then push each project
      into the untagged bucket when it has no tag list, else once per tag
      into the tag's bucket or, for a tag without a bucket, the untagged
      one. */
  method SplitIntoBuckets(projects: seq<Project>) returns (results: map<string, seq<Project>>)
    ensures results.Keys == BucketKeys
    ensures forall k :: k in BucketKeys ==> results[k] == Bucket(projects, k)
  {
    results := map[];
    for t := 0 to |TagPriority|
      invariant forall k :: k in results <==> k in TagPriority[..t]
      invariant forall k :: k in results ==> results[k] == []
    {
      assert TagPriority[..t + 1] == TagPriority[..t] + [TagPriority[t]];
      results := results[TagPriority[t] := []];
    }
    assert TagPriority[..|TagPriority|] == TagPriority;
    results := results[Untagged := []];

    for i := 0 to |projects|
      invariant Distributed(results, projects[..i])
    {
      assert projects[..i + 1] == projects[..i] + [projects[i]];
      results := Distribute(results, projects[..i], projects[i]);
    }
    assert projects[..|projects|] == projects;
  }

  /** The body of the outer loop of `splitIntoBuckets` for one project:
      its untagged entry, or one entry per tag. */
  method Distribute(results: map<string, seq<Project>>, done: seq<Project>, project: Project)
    returns (next: map<string, seq<Project>>)
    requires Distributed(results, done)
    ensures Distributed(next, done + [project])
  {
    next := results;
    if project.tags.None? {
      PushUntagged(next, done, project);
      next := next[Untagged := next[Untagged] + [project]];
      return;
    }
    var tags := project.tags.value;
    StartProject(next, done, project);
    assert tags[..0] == [];
    for j := 0 to |tags|
      invariant PartlyDistributed(next, done, project, tags[..j])
    {
      var tag := tags[j];
      assert tags[..j + 1] == tags[..j] + [tag];
      PushTag(next, done, project, tags[..j], tag);
      if tag in next {
        assert Route(tag) == tag;
        next := next[tag := next[tag] + [project]];
      } else {
        assert Route(tag) == Untagged;
        next := next[Untagged := next[Untagged] + [project]];
      }
    }
    assert tags[..|tags|] == tags;
    FinishProject(next, done, project);
  }

  lemma PushUntagged(results: map<string, seq<Project>>, ps: seq<Project>, p: Project)
    requires Distributed(results, ps) && p.tags.None?
    ensures Distributed(results[Untagged := results[Untagged] + [p]], ps + [p])
  {
    assert (ps + [p])[..|ps|] == ps;
    RepeatSnoc(p, 0);
  }

  lemma PushTag(results: map<string, seq<Project>>, ps: seq<Project>, p: Project, tags: seq<string>, tag: string)
    requires PartlyDistributed(results, ps, p, tags)
    ensures PartlyDistributed(results[Route(tag) := results[Route(tag)] + [p]], ps, p, tags + [tag])
  {
    PushTagAt(results[KhronosOfficial], Bucket(ps, KhronosOfficial), p, tags, tag, KhronosOfficial);
    PushTagAt(results[StaffPicks], Bucket(ps, StaffPicks), p, tags, tag, StaffPicks);
    PushTagAt(results[Untagged], Bucket(ps, Untagged), p, tags, tag, Untagged);
  }

  /** One bucket's share of `PushTag`. */
  lemma PushTagAt(bucket: seq<Project>, base: seq<Project>, p: Project, tags: seq<string>, tag: string, k: string)
    requires bucket == base + Repeat(p, CountRouted(tags, k))
    ensures (if Route(tag) == k then bucket + [p] else bucket) == base + Repeat(p, CountRouted(tags + [tag], k))
  {
    CountRoutedSnoc(tags, tag, k);
    RepeatSnoc(p, CountRouted(tags, k));
  }

  lemma CountRoutedSnoc(tags: seq<string>, tag: string, k: string)
    ensures CountRouted(tags + [tag], k) == CountRouted(tags, k) + if Route(tag) == k then 1 else 0
  {
    assert (tags + [tag])[..|tags|] == tags;
  }

  lemma StartProject(results: map<string, seq<Project>>, ps: seq<Project>, p: Project)
    requires Distributed(results, ps)
    ensures PartlyDistributed(results, ps, p, [])
  {
    assert Repeat(p, 0) == [];
  }

  lemma FinishProject(results: map<string, seq<Project>>, ps: seq<Project>, p: Project)
    requires p.tags.Some? && PartlyDistributed(results, ps, p, p.tags.value)
    ensures Distributed(results, ps + [p])
  {
    assert (ps + [p])[..|ps|] == ps;
  }

  lemma RepeatSnoc(p: Project, n: nat)
    ensures Repeat(p, n + 1) == Repeat(p, n) + [p]
  {
  }

  lemma RouteStep(tags: seq<string>, j: nat)
    requires j < |tags|
    ensures forall k :: CountRouted(tags[..j + 1], k) == CountRouted(tags[..j], k) + (if Route(tags[j]) == k then 1 else 0)
  {
    assert tags[..j + 1][..j] == tags[..j];
  }

  /** The tags of one project are routed to exactly the three buckets. */
  lemma {:induction false} CountRoutedSum(tags: seq<string>)
    ensures CountRouted(tags, KhronosOfficial) + CountRouted(tags, StaffPicks)
          + CountRouted(tags, Untagged) == |tags|
  {
    if tags != [] {
      CountRoutedSum(tags[..|tags| - 1]);
    }
  }

  /** The buckets hold one entry per tag of each tagged project and one
      per project without a tag list, and nothing else. */
  lemma {:induction false} BucketSizes(ps: seq<Project>)
    ensures |Bucket(ps, KhronosOfficial)| + |Bucket(ps, StaffPicks)| + |Bucket(ps, Untagged)|
         == EntryCount(ps)
  {
    if ps != [] {
      BucketSizes(ps[..|ps| - 1]);
      var p := ps[|ps| - 1];
      if p.tags.Some? {
        CountRoutedSum(p.tags.value);
      }
    }
  }

  /** Bucket `k` holds each project as often as the input does, times the
      number of entries it has for `k`. */
  lemma {:induction false} BucketCount(ps: seq<Project>, k: string, x: Project)
    ensures multiset(Bucket(ps, k))[x] == multiset(ps)[x] * Multiplicity(x, k)
  {
    if ps != [] {
      var prefix, p := ps[..|ps| - 1], ps[|ps| - 1];
      BucketCount(prefix, k, x);
      BucketCountStep(ps, k, x);
      if x == p {
        MulSucc(multiset(prefix)[x], Multiplicity(x, k));
      }
    }
  }

  /** How the last project changes the counts of `x` in the input and in
      bucket `k`. */
  lemma BucketCountStep(ps: seq<Project>, k: string, x: Project)
    requires ps != []
    ensures var prefix, p := ps[..|ps| - 1], ps[|ps| - 1];
      && multiset(ps)[x] == multiset(prefix)[x] + (if x == p then 1 else 0)
      && multiset(Bucket(ps, k))[x] == multiset(Bucket(prefix, k))[x] + (if x == p then Multiplicity(x, k) else 0)
  {
    var prefix, p := ps[..|ps| - 1], ps[|ps| - 1];
    assert ps == prefix + [p];
    RepeatCount(p, Multiplicity(p, k), x);
    assert Bucket(ps, k) == Bucket(prefix, k) + Repeat(p, Multiplicity(p, k));
  }

  lemma MulSucc(c: nat, m: nat)
    ensures (c + 1) * m == c * m + m
  {
  }

  lemma {:induction false} RepeatCount(p: Project, n: nat, x: Project)
    ensures multiset(Repeat(p, n))[x] == if x == p then n else 0
  {
    if n > 0 {
      RepeatCount(p, n - 1, x);
      assert Repeat(p, n) == Repeat(p, n - 1) + [p];
    }
  }

  /** A project is in bucket `k` iff it is in the input and has an entry
      for `k`. */
  lemma BucketMembership(ps: seq<Project>, k: string, x: Project)
    ensures x in Bucket(ps, k) <==> x in ps && Multiplicity(x, k) > 0
  {
    BucketCount(ps, k, x);
  }

  /** Distribution respects input order: distributing a concatenation
      concatenates the buckets. */
  lemma {:induction false} BucketAppend(xs: seq<Project>, ys: seq<Project>, k: string)
    ensures Bucket(xs + ys, k) == Bucket(xs, k) + Bucket(ys, k)
  {
    if ys == [] {
      assert xs + ys == xs;
    } else {
      var n := |ys| - 1;
      BucketAppend(xs, ys[..n], k);
      assert (xs + ys)[..|xs + ys| - 1] == xs + ys[..n];
      assert (xs + ys)[|xs + ys| - 1] == ys[n];
    }
  }

  /** Each tag of a tagged project puts the project in that tag's bucket:
      its own when a bucket has its name, otherwise the untagged one. */
  lemma TagPlacement(ps: seq<Project>, p: Project, t: string)
    requires p in ps && p.tags.Some? && t in p.tags.value
    ensures p in Bucket(ps, Route(t))
  {
    CountRoutedPositive(p.tags.value, t);
    BucketMembership(ps, Route(t), p);
  }

  lemma {:induction false} CountRoutedPositive(tags: seq<string>, t: string)
    requires t in tags
    ensures CountRouted(tags, Route(t)) > 0
  {
    var prefix := tags[..|tags| - 1];
    if tags[|tags| - 1] != t {
      assert tags == prefix + [tags[|tags| - 1]];
      CountRoutedPositive(prefix, t);
    }
  }

  /** A project without a tag list goes to the untagged bucket only. */
  lemma UntaggedGoesToUntaggedOnly(ps: seq<Project>, p: Project)
    requires p in ps && p.tags.None?
    ensures p in Bucket(ps, Untagged)
    ensures p !in Bucket(ps, KhronosOfficial) && p !in Bucket(ps, StaffPicks)
  {
    BucketMembership(ps, Untagged, p);
    BucketMembership(ps, KhronosOfficial, p);
    BucketMembership(ps, StaffPicks, p);
  }

  /** A project with an empty tag list lands in no bucket at all. */
  lemma EmptyTagsInNoBucket(ps: seq<Project>, p: Project, k: string)
    requires p.tags == Some([])
    ensures p !in Bucket(ps, k)
  {
    BucketMembership(ps, k, p);
  }

  /** A project with a priority tag and another tag lands both in the
      priority bucket and in the untagged bucket. */
  lemma MixedTagsLandTwice(ps: seq<Project>, p: Project)
    requires p in ps && p.tags == Some([StaffPicks, "Sample"])
    ensures p in Bucket(ps, StaffPicks) && p in Bucket(ps, Untagged)
  {
    var tags := [StaffPicks, "Sample"];
    assert "Sample" !in BucketKeys;
    RouteStep(tags, 0);
    RouteStep(tags, 1);
    assert tags[..0] == [];
    assert tags[..2] == tags;
    assert Route(tags[0]) == StaffPicks;
    assert Route(tags[1]) == Untagged;
    assert CountRouted(tags[..1], StaffPicks) == 1;
    assert CountRouted(tags[..1], Untagged) == 0;
    assert CountRouted(tags, StaffPicks) == 1;
    assert CountRouted(tags, Untagged) == 1;
    BucketMembership(ps, StaffPicks, p);
    BucketMembership(ps, Untagged, p);
  }
}
