/** The sidebar filter: the records whose name or description contains the
    search term (ignoring ASCII case) and whose category matches the selection. */
module TemplateFilter {
  import opened Text
  import opened Catalog

  /** The text condition: the lower-cased term is a substring of the lower-cased
      name or of the lower-cased description (empty when absent). */
  predicate TextMatches(t: Template, searchTerm: string)
  {
    Contains(Lower(searchTerm), Lower(t.name))
    || Contains(Lower(searchTerm), Lower(Description(t)))
  }

  /** The category condition: the selection is "All", or it equals the record's
      defaulted category exactly (case matters). */
  predicate CategoryMatches(t: Template, selectedCategory: string)
  {
    selectedCategory == AllCategories || Category(t) == selectedCategory
  }

  /** Both conditions: the record is listed. */
  predicate Selected(t: Template, searchTerm: string, selectedCategory: string)
  {
    TextMatches(t, searchTerm) && CategoryMatches(t, selectedCategory)
  }

  /** The reference definition of the filter: the selected records, in catalog order. */
  function Filtered(templates: seq<Template>, searchTerm: string, selectedCategory: string): seq<Template>
  {
    if templates == [] then []
    else
      var rest := Filtered(templates[..|templates| - 1], searchTerm, selectedCategory);
      var t := templates[|templates| - 1];
      if Selected(t, searchTerm, selectedCategory) then rest + [t] else rest
  }

  /** `a` is obtained from `b` by deleting elements, the rest kept in order. */
  predicate IsSubsequence<T(==)>(a: seq<T>, b: seq<T>)
    decreases |b|
  {
    if b == [] then a == []
    else (a != [] && a[0] == b[0] && IsSubsequence(a[1..], b[1..])) || IsSubsequence(a, b[1..])
  }

  /** The filter loop: every record that passes both conditions is appended. */
  method FilterTemplates(templates: seq<Template>, searchTerm: string, selectedCategory: string)
    returns (filtered: seq<Template>)
    ensures filtered == Filtered(templates, searchTerm, selectedCategory)
    ensures IsSubsequence(filtered, templates)
    ensures forall t :: t in filtered ==> Selected(t, searchTerm, selectedCategory)
    ensures forall t :: t in templates && Selected(t, searchTerm, selectedCategory) ==> t in filtered
  {
    filtered := [];
    var i := 0;
    while i < |templates|
      invariant 0 <= i <= |templates|
      invariant filtered == Filtered(templates[..i], searchTerm, selectedCategory)
    {
      var t := templates[i];
      assert templates[..i + 1][..i] == templates[..i];
      if Selected(t, searchTerm, selectedCategory) {
        filtered := filtered + [t];
      }
      i := i + 1;
    }
    assert templates[..i] == templates;
    FilteredIsSubsequence(templates, searchTerm, selectedCategory);
    FilteredSoundAndComplete(templates, searchTerm, selectedCategory);
  }

  /** Prepending an element to both sides keeps a subsequence one. */
  lemma {:induction false} SubsequenceSnoc<T>(a: seq<T>, b: seq<T>, x: T, keep: bool)
    requires IsSubsequence(a, b)
    ensures IsSubsequence(if keep then a + [x] else a, b + [x])
    decreases |b|
  {
    var a' := if keep then a + [x] else a;
    if b == [] {
      if keep {
        assert a' == [x] && a'[1..] == [];
        assert (b + [x])[1..] == [];
      } else {
        assert a' == [];
        assert (b + [x])[1..] == [];
      }
    } else {
      assert (b + [x])[1..] == b[1..] + [x];
      if a != [] && a[0] == b[0] && IsSubsequence(a[1..], b[1..]) {
        SubsequenceSnoc(a[1..], b[1..], x, keep);
        assert (if keep then a[1..] + [x] else a[1..]) == a'[1..];
      } else {
        SubsequenceSnoc(a, b[1..], x, keep);
      }
    }
  }

  /** The result is a subsequence of the catalog: order is kept, nothing is invented. */
  lemma {:induction false} FilteredIsSubsequence(templates: seq<Template>, searchTerm: string, selectedCategory: string)
    ensures IsSubsequence(Filtered(templates, searchTerm, selectedCategory), templates)
    decreases |templates|
  {
    if templates != [] {
      var prefix := templates[..|templates| - 1];
      var t := templates[|templates| - 1];
      FilteredIsSubsequence(prefix, searchTerm, selectedCategory);
      SubsequenceSnoc(Filtered(prefix, searchTerm, selectedCategory), prefix, t,
                      Selected(t, searchTerm, selectedCategory));
      assert prefix + [t] == templates;
    }
  }

  /** Each record occurs in the result exactly as often as in the catalog when it
      passes both conditions, and not at all otherwise: the filter is sound,
      complete, and adds no duplicates. */
  lemma {:induction false} FilteredMultiplicity(templates: seq<Template>, searchTerm: string, selectedCategory: string, t: Template)
    ensures multiset(Filtered(templates, searchTerm, selectedCategory))[t]
         == if Selected(t, searchTerm, selectedCategory) then multiset(templates)[t] else 0
    decreases |templates|
  {
    if templates != [] {
      var prefix := templates[..|templates| - 1];
      assert prefix + [templates[|templates| - 1]] == templates;
      FilteredMultiplicity(prefix, searchTerm, selectedCategory, t);
    }
  }

  /** Soundness and completeness of the filter, stated by membership. */
  lemma {:induction false} FilteredSoundAndComplete(templates: seq<Template>, searchTerm: string, selectedCategory: string)
    ensures forall t :: t in Filtered(templates, searchTerm, selectedCategory)
              <==> t in templates && Selected(t, searchTerm, selectedCategory)
  {
    forall t
      ensures t in Filtered(templates, searchTerm, selectedCategory)
          <==> t in templates && Selected(t, searchTerm, selectedCategory)
    {
      FilteredMultiplicity(templates, searchTerm, selectedCategory, t);
    }
  }

  /** The initial view (empty search, category "All") lists the whole catalog unchanged. */
  lemma {:induction false} FilterEverything(templates: seq<Template>)
    ensures Filtered(templates, "", AllCategories) == templates
    decreases |templates|
  {
    if templates != [] {
      var prefix := templates[..|templates| - 1];
      var t := templates[|templates| - 1];
      FilterEverything(prefix);
      ContainsIffOccurs(Lower(""), Lower(t.name));
      assert Selected(t, "", AllCategories);
      assert prefix + [t] == templates;
    }
  }

  /** The search ignores the case of the term: lower-casing it first changes nothing. */
  lemma {:induction false} FilterIgnoresTermCase(templates: seq<Template>, searchTerm: string, selectedCategory: string)
    ensures Filtered(templates, Lower(searchTerm), selectedCategory) == Filtered(templates, searchTerm, selectedCategory)
    decreases |templates|
  {
    LowerIdempotent(searchTerm);
    if templates != [] {
      FilterIgnoresTermCase(templates[..|templates| - 1], searchTerm, selectedCategory);
    }
  }

  /** Applying the same filter to its own result changes nothing. */
  lemma {:induction false} FilterIdempotent(templates: seq<Template>, searchTerm: string, selectedCategory: string)
    ensures Filtered(Filtered(templates, searchTerm, selectedCategory), searchTerm, selectedCategory)
         == Filtered(templates, searchTerm, selectedCategory)
    decreases |templates|
  {
    if templates != [] {
      var prefix := templates[..|templates| - 1];
      var t := templates[|templates| - 1];
      var rest := Filtered(prefix, searchTerm, selectedCategory);
      FilterIdempotent(prefix, searchTerm, selectedCategory);
      if Selected(t, searchTerm, selectedCategory) {
        assert (rest + [t])[..|rest + [t]| - 1] == rest;
      }
    }
  }
}
