/** The project record the pipeline reads. */
module Projects {

  datatype Option<T> = None | Some(value: T)

  /** A project: its display name, its optional tag list, and its other
      per-dimension value lists, keyed by dimension name. A dimension the
      record lacks reads as absent, like a missing JavaScript property. */
  datatype Project = Project(
    name: string,
    tags: Option<seq<string>>,
    attributes: map<string, Option<seq<string>>>)

  /** The property name under which a project keeps its tags. */
  const TagsField: string := "tags"

  /** `project[dimension]`: the tag list when the dimension is the tags
      property, otherwise the attribute of that name, if any. */
  function Field(p: Project, dimension: string): (r: Option<seq<string>>)
    ensures dimension == TagsField ==> r == p.tags
    ensures dimension != TagsField && dimension in p.attributes ==> r == p.attributes[dimension]
    ensures dimension != TagsField && dimension !in p.attributes ==> r.None?
  {
    if dimension == TagsField then p.tags
    else if dimension in p.attributes then p.attributes[dimension]
    else None
  }
}
