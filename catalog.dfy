/** The conventional optional value, used for the optional keys of a record. */
module Wrappers {

  datatype Option<+T> = None | Some(value: T) {

    /** The carried value, or `default` when there is none: dict.get(key, default). */
    function GetOr(default: T): T
    {
      match this
      case Some(v) => v
      case None => default
    }
  }
}

/** A filter template record as it comes from the parsed JSON catalog, and the
    defaulting read accessors the page applies to it. */
module Catalog {
  import opened Wrappers

  /** The category shown for a record that has no "category" key. */
  const Uncategorized: string := "Uncategorized"

  /** The category selection that lets every record through. */
  const AllCategories: string := "All"

  /** One record: a required "name", an optional "description" and an optional "category". */
  datatype Template = Template(name: string, description: Option<string>, category: Option<string>)

  /** t.get("description", ""). */
  function Description(t: Template): string
  {
    t.description.GetOr("")
  }

  /** t.get("category", "Uncategorized"): an absent key gives the sentinel,
      a present key (even an empty one) gives its own value. */
  function Category(t: Template): string
  {
    t.category.GetOr(Uncategorized)
  }

  /** [t.get("category", "Uncategorized") for t in templates]. */
  function CategoriesOf(templates: seq<Template>): (r: seq<string>)
    ensures |r| == |templates|
    ensures forall i :: 0 <= i < |templates| ==> r[i] == Category(templates[i])
  {
    if templates == [] then []
    else CategoriesOf(templates[..|templates| - 1]) + [Category(templates[|templates| - 1])]
  }
}
