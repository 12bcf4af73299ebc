/** Stage 1 of the pipeline (`applyTagFilters`): keep the projects that
    match the selected filters, OR within a dimension, AND across the
    dimensions that have a selected filter. */
module TagFilter {
  import opened Projects
  import opened Sequences

  /** One selected filter: a value on one dimension. */
  datatype SelectedFilter = SelectedFilter(dimension: string, value: string)

  /** Some selected filter is on dimension `d`. */
  predicate Selects(selected: seq<SelectedFilter>, d: string) {
    exists f :: f in selected && f.dimension == d
  }

  /** `p` lists `v` among its values for dimension `d`. */
  predicate HasValue(p: Project, d: string, v: string) {
    match Field(p, d)
    case None => false
    case Some(values) => v in values
  }

  /** The filters of `selected` grouped by dimension, as the `reduce` that
      builds `groupedFilters` does: a dimension gets a list at its first
      filter, and each filter is appended to its dimension's list. */
  function GroupFilters(selected: seq<SelectedFilter>): (grouped: map<string, seq<SelectedFilter>>)
    ensures forall d :: d in grouped <==> Selects(selected, d)
  {
    if selected == [] then map[]
    else
      var prefix := selected[..|selected| - 1];
      var acc := GroupFilters(prefix);
      var f := selected[|selected| - 1];
      var group := if f.dimension in acc then acc[f.dimension] else [];
      assert selected == prefix + [f];
      acc[f.dimension := group + [f]]
  }

  /** Each dimension's list holds that dimension's filters in selection
      order. */
  lemma {:induction false} GroupFiltersInOrder(selected: seq<SelectedFilter>, d: string)
    requires Selects(selected, d)
    ensures GroupFilters(selected)[d] == Filter(selected, (f: SelectedFilter) => f.dimension == d)
  {
    var n := |selected| - 1;
    var prefix, f := selected[..n], selected[n];
    var keep := (g: SelectedFilter) => g.dimension == d;
    assert Filter(selected, keep)
        == Filter(prefix, keep) + (if keep(f) then [f] else []);
    GroupStep(selected, d);
    if Selects(prefix, d) {
      GroupFiltersInOrder(prefix, d);
    } else {
      FilterDropsAll(prefix, keep);
    }
  }

  /** One step of the fold, seen from dimension `d`. */
  lemma GroupStep(selected: seq<SelectedFilter>, d: string)
    requires Selects(selected, d)
    ensures var prefix, f := selected[..|selected| - 1], selected[|selected| - 1];
      GroupFilters(selected)[d]
        == (if Selects(prefix, d) then GroupFilters(prefix)[d] else [])
         + (if f.dimension == d then [f] else [])
  {
    var prefix, f := selected[..|selected| - 1], selected[|selected| - 1];
    assert selected == prefix + [f];
    if !Selects(prefix, d) {
      assert f.dimension == d;
    }
  }

  /** The `some` over one dimension's filters: the project has a value
      list for `d` and it contains the value of one of `group`'s filters. */
  predicate DimensionMatches(p: Project, group: seq<SelectedFilter>, d: string) {
    exists f :: f in group && HasValue(p, d, f.value)
  }

  /** The per-project loop over the enumerated dimensions, with `match`
      carried along: dimensions without selected filters are skipped, a
      failing dimension sets `match` to false and stops the loop, and the
      last value of `match` is the answer. */
  function MatchFrom(p: Project, dimensions: seq<string>, grouped: map<string, seq<SelectedFilter>>, matched: bool): (r: bool)
    ensures r ==> matched || exists d :: d in dimensions && d in grouped
  {
    if dimensions == [] then matched
    else if dimensions[0] !in grouped then MatchFrom(p, dimensions[1..], grouped, matched)
    else if !DimensionMatches(p, grouped[dimensions[0]], dimensions[0]) then false
    else MatchFrom(p, dimensions[1..], grouped, true)
  }

  /** `applyTagFilters`: an empty selection lets everything through;
      otherwise each project runs the loop starting from `match = false`. */
  function ApplyTagFilters(projects: seq<Project>, selected: seq<SelectedFilter>, dimensions: seq<string>): (r: seq<Project>)
    ensures |r| <= |projects|
    ensures forall x :: x in r ==> x in projects
  {
    if |selected| < 1 then projects
    else
      var grouped := GroupFilters(selected);
      Filter(projects, p => MatchFrom(p, dimensions, grouped, false))
  }

  /** Declarative reading of the filter, independent of the grouping and of
      the loop: some enumerated dimension has a selected filter, and for
      every such dimension the project has a value of one of its filters. */
  predicate Keeps(p: Project, dimensions: seq<string>, selected: seq<SelectedFilter>) {
    && (exists d :: d in dimensions && Selects(selected, d))
    && (forall d :: d in dimensions && Selects(selected, d) ==>
          exists f :: f in selected && f.dimension == d && HasValue(p, d, f.value))
  }

  /** What the loop computes from any starting `match`: it ends true iff it
      started true or met a dimension with filters, and no dimension with
      filters failed. */
  lemma {:induction false} MatchFromMeaning(p: Project, dimensions: seq<string>, selected: seq<SelectedFilter>, matched: bool)
    ensures MatchFrom(p, dimensions, GroupFilters(selected), matched) <==>
      && (matched || exists d :: d in dimensions && Selects(selected, d))
      && (forall d :: d in dimensions && Selects(selected, d) ==>
            exists f :: f in selected && f.dimension == d && HasValue(p, d, f.value))
  {
    var grouped := GroupFilters(selected);
    if dimensions != [] {
      var d := dimensions[0];
      var rest := dimensions[1..];
      assert forall e :: e in dimensions <==> e == d || e in rest;
      if d in grouped {
        GroupFiltersInOrder(selected, d);
        assert DimensionMatches(p, grouped[d], d) <==>
          exists f :: f in selected && f.dimension == d && HasValue(p, d, f.value);
        if DimensionMatches(p, grouped[d], d) {
          MatchFromMeaning(p, rest, selected, true);
        }
      } else {
        MatchFromMeaning(p, rest, selected, matched);
      }
    }
  }

  /** With a non-empty selection, the stage keeps, in order, exactly the
      projects satisfying `Keeps`. */
  lemma TagFilterSelects(projects: seq<Project>, selected: seq<SelectedFilter>, dimensions: seq<string>)
    requires |selected| > 0
    ensures ApplyTagFilters(projects, selected, dimensions)
         == Filter(projects, p => Keeps(p, dimensions, selected))
  {
    var grouped := GroupFilters(selected);
    forall p | p in projects
      ensures MatchFrom(p, dimensions, grouped, false) == Keeps(p, dimensions, selected)
    {
      MatchFromMeaning(p, dimensions, selected, false);
    }
    FilterCongruent(projects, p => MatchFrom(p, dimensions, grouped, false),
                    p => Keeps(p, dimensions, selected));
  }

  /** Membership: a project is in the result iff it is in the input and,
      for a non-empty selection, satisfies `Keeps`. */
  lemma TagFilterMembership(projects: seq<Project>, selected: seq<SelectedFilter>, dimensions: seq<string>, x: Project)
    ensures x in ApplyTagFilters(projects, selected, dimensions) <==>
      x in projects && (|selected| == 0 || Keeps(x, dimensions, selected))
  {
    if |selected| > 0 {
      TagFilterSelects(projects, selected, dimensions);
    }
  }

  /** An empty selection is the identity. */
  lemma TagFilterEmptyIsIdentity(projects: seq<Project>, dimensions: seq<string>)
    ensures ApplyTagFilters(projects, [], dimensions) == projects
  {
  }

  /** The stage returns a selection from its input in the original order:
      no project is added, duplicated or moved. */
  lemma TagFilterIsSelection(projects: seq<Project>, selected: seq<SelectedFilter>, dimensions: seq<string>)
    returns (idx: seq<nat>)
    ensures SelectionOf(ApplyTagFilters(projects, selected, dimensions), projects, idx)
  {
    if |selected| < 1 {
      idx := seq(|projects|, i requires 0 <= i < |projects| => i);
    } else {
      var grouped := GroupFilters(selected);
      idx := FilterIsSelection(projects, p => MatchFrom(p, dimensions, grouped, false));
    }
  }

  /** `match` starts false: when no selected filter is on an enumerated
      dimension, the loop never sets it and every project is dropped. */
  lemma NoEnumeratedDimensionDropsAll(projects: seq<Project>, selected: seq<SelectedFilter>, dimensions: seq<string>)
    requires |selected| > 0
    requires forall f :: f in selected ==> f.dimension !in dimensions
    ensures ApplyTagFilters(projects, selected, dimensions) == []
  {
    TagFilterSelects(projects, selected, dimensions);
    assert forall d :: d in dimensions ==> !Selects(selected, d);
    FilterDropsAll(projects, p => Keeps(p, dimensions, selected));
  }

  /** One filter `category = Shader` over two projects, only one of which
      lists `Shader` under `category`: only that one passes. */
  lemma CategoryScenario()
    ensures
      var shader := Project("Shader demo", None, map["category" := Some(["Shader"])]);
      var other := Project("Viewer", None, map["category" := Some(["Viewer"])]);
      ApplyTagFilters([shader, other], [SelectedFilter("category", "Shader")], ["category"]) == [shader]
  {
    var shader := Project("Shader demo", None, map["category" := Some(["Shader"])]);
    var other := Project("Viewer", None, map["category" := Some(["Viewer"])]);
    var selected := [SelectedFilter("category", "Shader")];
    TagFilterSelects([shader, other], selected, ["category"]);
    assert Keeps(shader, ["category"], selected) by {
      assert Selects(selected, "category");
      assert HasValue(shader, "category", "Shader");
    }
    assert !Keeps(other, ["category"], selected) by {
      assert !HasValue(other, "category", "Shader");
    }
    var keep := (p: Project) => Keeps(p, ["category"], selected);
    assert [shader, other][..1] == [shader];
    assert [shader][..0] == [];
  }
}
