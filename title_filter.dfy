/** Stage 2 of the pipeline (`applyTitleSearchFilter`): a case-insensitive
    substring search on project names. */
module TitleFilter {
  import opened Projects
  import opened Sequences
  import opened Text

  /** An absent or empty search string lets everything through; otherwise
      the projects whose lower-cased name includes the lower-cased search
      string are kept, in order. */
  function ApplyTitleSearchFilter(projects: seq<Project>, titleSubstring: Option<string>): (r: seq<Project>)
    ensures forall x :: x in r ==> x in projects
  {
    match titleSubstring
    case None => projects
    case Some(sub) =>
      if sub == [] then projects
      else
        var needle := Lower(sub);
        Filter(projects, (p: Project) => Includes(Lower(p.name), needle))
  }

  /** The name mentions `sub`, ignoring ASCII case: the lower-cased `sub`
      occurs at some position of the lower-cased name. */
  ghost predicate Mentions(name: string, sub: string) {
    exists i :: OccursAt(Lower(name), Lower(sub), i)
  }

  /** Without a search string the stage is the identity. */
  lemma TitleSearchAbsentIsIdentity(projects: seq<Project>)
    ensures ApplyTitleSearchFilter(projects, None) == projects
    ensures ApplyTitleSearchFilter(projects, Some("")) == projects
  {
  }

  /** With a search string, the stage keeps, in order, exactly the
      projects whose name mentions it. */
  lemma TitleSearchSelects(projects: seq<Project>, sub: string)
    requires sub != []
    ensures ApplyTitleSearchFilter(projects, Some(sub))
         == Filter(projects, (p: Project) => Mentions(p.name, sub))
  {
    var needle := Lower(sub);
    forall p | p in projects
      ensures Includes(Lower(p.name), needle) == Mentions(p.name, sub)
    {
      IncludesIffOccurs(Lower(p.name), needle);
    }
    FilterCongruent(projects, (p: Project) => Includes(Lower(p.name), needle), (p: Project) => Mentions(p.name, sub));
  }

  /** The stage returns a selection from its input in the original order. */
  lemma TitleSearchIsSelection(projects: seq<Project>, titleSubstring: Option<string>)
    returns (idx: seq<nat>)
    ensures SelectionOf(ApplyTitleSearchFilter(projects, titleSubstring), projects, idx)
  {
    if titleSubstring.None? || titleSubstring.value == [] {
      idx := seq(|projects|, i requires 0 <= i < |projects| => i);
    } else {
      var needle := Lower(titleSubstring.value);
      idx := FilterIsSelection(projects, (p: Project) => Includes(Lower(p.name), needle));
    }
  }

  /** The search ignores the case of the search string: two strings that
      lower-case alike, such as a string and its upper-cased form, select
      the same projects. */
  lemma TitleSearchIgnoresCase(projects: seq<Project>, sub: string)
    ensures ApplyTitleSearchFilter(projects, Some(Upper(sub)))
         == ApplyTitleSearchFilter(projects, Some(sub))
  {
    LowerOfUpper(sub);
  }
}
