# Filter template guide — a Dafny model of its data logic

The XTM Filter Template Guide is a single Streamlit page. It loads a catalog of
filter-template records: each has a required `name`, an optional `description` and
an optional `category`. The page builds three things from the catalog:

- the category selectbox, i.e. `"All"` followed by the sorted, duplicate-free
  defaulted categories;
- the filtered template list. A record is kept when it passes two tests. The
  lower-cased search term must be a substring of its lower-cased name or of its
  lower-cased description. The selected category must be `"All"` or equal the
  record's own category;
- the auto-generated decision flowchart: an insertion-ordered dictionary `cats`
  from category to names, a node list and an edge list. The node list holds a
  `"Content"` root, one node per category (with a root edge) and one node per
  template (with an edge from its category).

The model states these operations over a sequence of parsed records and proves what
they compute.

- `Text` covers ASCII `str.lower()`, Python's substring `in` and the code-point
  order of strings that `sorted()` uses.
- `Catalog` covers the record datatype and the `t.get(key, default)` accessors.
  It uses `Wrappers.Option`.
- `TemplateFilter` is the filter loop (a `method` with a `while` loop), proved
  against the reference function `Filtered`.
- `CategoryOptions` is the selectbox list, defined as functions. The source line
  is a comprehension feeding `set` and `sorted`.
- `Flowchart` models the grouping loop and the nested node/edge loop as methods.
  The proof compares them with `HierarchyOf` (the dictionary after each record)
  and with `Emit` (what the nested loop appends for each key).

Only a missing `category` key gets `"Uncategorized"`
(`t.get("category", "Uncategorized")`). A record whose `category` is the empty
string keeps `""` as its category. A missing `description` reads as `""`.

If some record has the category `"All"`, the selectbox lists `"All"` twice: once
as the "every category" choice and once as that category. Choosing it then shows
every record. `Options` states this as it is: its first entry is `"All"` and the
rest are the sorted categories, whatever they contain.

## Model

| member | source | states |
|---|---|---|
| Text.Lower | xtm_filter_templates_app.py:37 | `.lower()` keeps the length and lower-cases each ASCII capital, character by character |
| Text.LowerIdempotent | xtm_filter_templates_app.py:37 | lower-casing an already lower-cased string changes nothing |
| Text.ContainsIffOccurs | xtm_filter_templates_app.py:37 | `needle in hay` holds exactly when the needle occurs at some position of the hay; the empty string is in every string |
| Text.LessIrreflexive | xtm_filter_templates_app.py:29 | no string sorts before itself |
| Text.LessTransitive | xtm_filter_templates_app.py:29 | the string order `sorted()` uses is transitive |
| Text.LessTotal | xtm_filter_templates_app.py:29 | any two different strings are ordered one way |
| Text.LessAsymmetric | xtm_filter_templates_app.py:29 | two strings are never ordered both ways |
| Catalog.CategoriesOf | xtm_filter_templates_app.py:29 | the comprehension gives one defaulted category per record, position by position |
| TemplateFilter.FilterTemplates | xtm_filter_templates_app.py:35-39 | the loop's result is the reference filter; it is a subsequence of the catalog; every kept record passes both tests, and every record that passes both is kept |
| TemplateFilter.FilteredIsSubsequence | xtm_filter_templates_app.py:35-39 | the filtered list keeps catalog order and invents nothing |
| TemplateFilter.FilteredMultiplicity | xtm_filter_templates_app.py:36-39 | a record passing both tests occurs as often as in the catalog; any other record does not occur at all |
| TemplateFilter.FilteredSoundAndComplete | xtm_filter_templates_app.py:36-39 | a record is in the result if and only if it is in the catalog, its name or description contains the lower-cased term, and the category is "All" or equals the record's own |
| TemplateFilter.FilterEverything | xtm_filter_templates_app.py:28-30 | the initial view, with an empty search and "All", shows the entire catalog in order |
| TemplateFilter.FilterIgnoresTermCase | xtm_filter_templates_app.py:37 | lower-casing the search term before filtering gives the same result |
| TemplateFilter.FilterIdempotent | xtm_filter_templates_app.py:35-39 | filtering the filtered list again with the same inputs changes nothing |
| CategoryOptions.Insert | xtm_filter_templates_app.py:29 | inserting into a strictly sorted list keeps it strictly sorted and adds exactly that value |
| CategoryOptions.SortedDistinct | xtm_filter_templates_app.py:29 | `sorted(set(xs))` is strictly sorted and holds exactly the values of xs |
| CategoryOptions.StrictlySortedDistinct | xtm_filter_templates_app.py:29 | a strictly sorted list has no duplicates |
| CategoryOptions.StrictlySortedUnique | xtm_filter_templates_app.py:29 | two strictly sorted lists with the same elements are equal |
| CategoryOptions.Options | xtm_filter_templates_app.py:29-30 | option 0 is "All"; the rest are strictly sorted, duplicate-free, and exactly the defaulted categories of the records |
| CategoryOptions.OptionsCanonical | xtm_filter_templates_app.py:29-30 | any strictly sorted listing of exactly the categories equals the options after "All" |
| Flowchart.FirstSeen | xtm_filter_templates_app.py:147-150 | the distinct values, each once, exactly those of the input |
| Flowchart.FirstSeenOrder | xtm_filter_templates_app.py:147-150 | FirstSeen lists values in the order of their first appearance |
| Flowchart.HierarchyDomain | xtm_filter_templates_app.py:144-151 | `cats` has a key for exactly the defaulted categories of the records |
| Flowchart.HierarchyKeysFirstSeen | xtm_filter_templates_app.py:144-151 | the key order of `cats` is the categories in order of first appearance |
| Flowchart.HierarchyGroups | xtm_filter_templates_app.py:144-151 | the list under each category holds the names of that category's records, in catalog order |
| Flowchart.HierarchyValid | xtm_filter_templates_app.py:144-151 | the keys of `cats` are distinct and are the dictionary's keys |
| Flowchart.HierarchyKeys | xtm_filter_templates_app.py:144-151 | the keys are distinct, exactly the categories, and ordered by the index of each category's first record |
| Flowchart.GroupByCategory | xtm_filter_templates_app.py:141-151 | the grouping loop builds `cats` as above; `nodes` is the root followed by one node per key; `edges` is one Content edge per key |
| Flowchart.AppendGroup | xtm_filter_templates_app.py:154-156 | the inner loop appends one node and one category-to-name edge per name, in order |
| Flowchart.AppendTemplates | xtm_filter_templates_app.py:153-156 | the nested loop appends, for each key in insertion order, the nodes and edges of its list |
| Flowchart.EmitAddOne | xtm_filter_templates_app.py:151 | appending a name under an existing key adds exactly one item to what the nested loop emits |
| Flowchart.EmitPermutesCatalog | xtm_filter_templates_app.py:144-156 | the nested loop emits one item per record, regrouped by category: the same multiset as a walk over the catalog |
| Flowchart.EmitLength | xtm_filter_templates_app.py:153-156 | the nested loop emits as many items as the lists hold in total |
| Flowchart.GroupSizesSumToCatalog | xtm_filter_templates_app.py:144-151 | the list lengths of `cats` sum to the number of records |
| Flowchart.FlowchartNodes | xtm_filter_templates_app.py:141-156 | the node list has exactly 1 + categories + records entries, the Content root first |
| Flowchart.FlowchartEdges | xtm_filter_templates_app.py:142-156 | the edge list has exactly categories + records entries |
| Flowchart.BuildFlowchart | xtm_filter_templates_app.py:141-156 | node 0 is the Content root; there are 1 + categories + records nodes and categories + records edges; category nodes and Content edges follow key order; each template edge leaves a category node; the lists are FlowchartNodes and FlowchartEdges, whose per-record contents FlowchartNodesShape and FlowchartEdgesShape state |
| Flowchart.FlowchartNodesShape | xtm_filter_templates_app.py:141-156 | the node list: root, one node per key in order, then one node per record |
| Flowchart.FlowchartEdgesShape | xtm_filter_templates_app.py:142-156 | the edge list: one Content edge per key in order, then one edge per record from its category, each leaving a key |
| Flowchart.EmitSources | xtm_filter_templates_app.py:153-156 | every template edge leaves the node of one of the dictionary's keys |
| Flowchart.RecordHasEdge | xtm_filter_templates_app.py:144-156 | every record has an edge from its own category to its name |
| Flowchart.GroupMatchesCategoryView | xtm_filter_templates_app.py:35-39 | the diagram branch of a category lists the same names, in the same order, as the template list shows when that category is selected with an empty search |

## Left out

- `load_templates` (xtm_filter_templates_app.py:12-16) is file I/O and JSON parsing. The model takes the parsed records as a sequence. JSON `null` values and extra keys are not modelled.
- The Streamlit rendering (title, sidebar widgets, expanders, download buttons; lines 21-55 and 110-126) is UI. The search term and selected category become parameters.
- `to_excel_styled` (lines 60-105) is out: it covers pandas/openpyxl serialisation, the column-width loop over library cell objects, and the `groupby` statistics.
- The CSV export through `df.to_csv` (line 115) is library serialisation.
- The Plotly sunburst (lines 132-134) and the `agraph` call with its `Config` (lines 158-159) are foreign rendering code. Only the node and edge lists handed to them are modelled.
- The `recommended_usage` and `suggested_use` fields are only displayed and exported, so the record datatype omits them.
- Text.Lower: does not model Unicode case mapping. Only the ASCII letters A-Z are lower-cased, so a non-ASCII search can match differently than Python's `str.lower()`.
- CategoryOptions.Options: does not model the `TypeError` that `sorted()` raises when a JSON category is not a string. Every category here is a string.
- A decision wizard or rule table does not appear in the page's source, so there is nothing of it to model.
- The node list can repeat an id. This happens when a template is named like a category or like `"Content"`, or when two templates share a name; nothing in lines 141-156 forces names to be unique or removes duplicates. The model builds `nodes` exactly as the source does, repeats included. What the graph widget does with repeated ids is not modelled.
