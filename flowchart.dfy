/** The auto-generated decision flowchart: the catalog grouped by category into an
    insertion-ordered dictionary, and the node and edge lists handed to the graph
    widget (a "Content" root, one node per category, one node per template). */
module Flowchart {
  import opened Text
  import opened Catalog
  import TemplateFilter

  /** A graph node as passed to the widget: id, label (`caption`; `label` is a Dafny keyword) and display size. */
  datatype Node = Node(id: string, caption: string, size: int)

  /** A directed graph edge. */
  datatype Edge = Edge(source: string, target: string)

  const RootId: string := "Content"
  const RootNode: Node := Node(RootId, "Content Type", 25)

  function CategoryNode(category: string): Node { Node(category, category, 20) }
  function CategoryEdge(category: string): Edge { Edge(RootId, category) }

  /** The node and the edge emitted for one name listed under one category. */
  function TemplateNode(category: string, name: string): Node { Node(name, name, 15) }
  function TemplateEdge(category: string, name: string): Edge { Edge(category, name) }

  /** A Python dict from category to list of names: `keys` is its insertion order. */
  datatype Hierarchy = Hierarchy(keys: seq<string>, groups: map<string, seq<string>>) {
    /** The keys are distinct and are exactly the dictionary's keys. */
    predicate Valid()
    {
      (forall i, j :: 0 <= i < j < |keys| ==> keys[i] != keys[j])
      && (forall k :: k in groups ==> k in keys)
      && (forall k :: k in keys ==> k in groups)
    }
  }

  // ---------------------------------------------------------------------------
  // Reference definitions

  /** The distinct values of xs, each where it first appears. */
  function FirstSeen(xs: seq<string>): (r: seq<string>)
    ensures forall i, j :: 0 <= i < j < |r| ==> r[i] != r[j]
    ensures forall z :: z in r <==> z in xs
  {
    if xs == [] then []
    else
      var prior := FirstSeen(xs[..|xs| - 1]);
      var x := xs[|xs| - 1];
      assert forall z :: z in xs <==> z in xs[..|xs| - 1] || z == x by {
        assert xs == xs[..|xs| - 1] + [x];
      }
      if x in prior then prior else prior + [x]
  }

  /** The position where x first appears in xs. */
  function FirstIndex(xs: seq<string>, x: string): (r: nat)
    requires x in xs
    ensures r < |xs| && xs[r] == x
    ensures forall k :: 0 <= k < r ==> xs[k] != x
  {
    if xs[0] == x then 0 else 1 + FirstIndex(xs[1..], x)
  }

  /** The names of the records of one category, in catalog order. */
  function NamesIn(templates: seq<Template>, category: string): seq<string>
  {
    if templates == [] then []
    else
      var t := templates[|templates| - 1];
      NamesIn(templates[..|templates| - 1], category) + (if Category(t) == category then [t.name] else [])
  }

  /** The dictionary `cats` the grouping loop holds after the given records: for each
      record, `if cat not in cats` inserts an empty list at the end, then the record's
      name is appended to the list of its category. What it contains is stated by
      HierarchyDomain, HierarchyKeys and HierarchyGroups. */
  function HierarchyOf(templates: seq<Template>): Hierarchy
  {
    if templates == [] then Hierarchy([], map[])
    else
      var h := HierarchyOf(templates[..|templates| - 1]);
      var t := templates[|templates| - 1];
      var c := Category(t);
      var h1 := if c in h.groups then h else Hierarchy(h.keys + [c], h.groups[c := []]);
      Hierarchy(h1.keys, h1.groups[c := h1.groups[c] + [t.name]])
  }

  /** One node per category, in the given order. */
  function CategoryNodes(keys: seq<string>): (r: seq<Node>)
    ensures |r| == |keys| && forall i :: 0 <= i < |keys| ==> r[i] == CategoryNode(keys[i])
  {
    if keys == [] then [] else CategoryNodes(keys[..|keys| - 1]) + [CategoryNode(keys[|keys| - 1])]
  }

  /** One root-to-category edge per category, in the given order. */
  function CategoryEdges(keys: seq<string>): (r: seq<Edge>)
    ensures |r| == |keys| && forall i :: 0 <= i < |keys| ==> r[i] == CategoryEdge(keys[i])
  {
    if keys == [] then [] else CategoryEdges(keys[..|keys| - 1]) + [CategoryEdge(keys[|keys| - 1])]
  }

  /** What the inner loop emits for one category: f(category, name) per name. */
  function Tagged<T>(category: string, names: seq<string>, f: (string, string) -> T): (r: seq<T>)
    ensures |r| == |names| && forall i :: 0 <= i < |names| ==> r[i] == f(category, names[i])
  {
    if names == [] then []
    else Tagged(category, names[..|names| - 1], f) + [f(category, names[|names| - 1])]
  }

  /** The list stored under a key (every key walked by the loops is present). */
  function GroupOf(groups: map<string, seq<string>>, key: string): seq<string>
  {
    if key in groups then groups[key] else []
  }

  /** What the nested loop over cats.items() emits, category by category. */
  function Emit<T>(keys: seq<string>, groups: map<string, seq<string>>, f: (string, string) -> T): seq<T>
  {
    if keys == [] then []
    else Emit(keys[..|keys| - 1], groups, f) + Tagged(keys[|keys| - 1], GroupOf(groups, keys[|keys| - 1]), f)
  }

  /** One more key walked by the outer loop adds its group's items at the end. */
  lemma EmitNext<T>(keys: seq<string>, k: nat, groups: map<string, seq<string>>, f: (string, string) -> T)
    requires k < |keys|
    ensures Emit(keys[..k + 1], groups, f) == Emit(keys[..k], groups, f) + Tagged(keys[k], GroupOf(groups, keys[k]), f)
  {
    assert keys[..k + 1][..k] == keys[..k];
  }

  /** Sum of the list lengths of the dictionary, over the given keys. */
  function TotalSize(keys: seq<string>, groups: map<string, seq<string>>): nat
  {
    if keys == [] then 0 else TotalSize(keys[..|keys| - 1], groups) + |GroupOf(groups, keys[|keys| - 1])|
  }

  /** f(category, name) for every record, in catalog order. */
  function CatalogItems<T>(templates: seq<Template>, f: (string, string) -> T): (r: seq<T>)
    ensures |r| == |templates|
    ensures forall i :: 0 <= i < |templates| ==> r[i] == f(Category(templates[i]), templates[i].name)
  {
    if templates == [] then []
    else
      var t := templates[|templates| - 1];
      CatalogItems(templates[..|templates| - 1], f) + [f(Category(t), t.name)]
  }

  // ---------------------------------------------------------------------------
  // The two passes

  /** First pass: insert each new category (with its node and root edge) and append
      each record's name under its category. */
  method GroupByCategory(templates: seq<Template>) returns (cats: Hierarchy, nodes: seq<Node>, edges: seq<Edge>)
    ensures cats == HierarchyOf(templates) && cats.Valid()
    ensures cats.keys == FirstSeen(CategoriesOf(templates))
    ensures forall c :: c in cats.groups <==> c in CategoriesOf(templates)
    ensures forall c :: c in cats.groups ==> cats.groups[c] == NamesIn(templates, c)
    ensures nodes == [RootNode] + CategoryNodes(cats.keys)
    ensures edges == CategoryEdges(cats.keys)
  {
    nodes := [RootNode];
    edges := [];
    cats := Hierarchy([], map[]);
    var i := 0;
    while i < |templates|
      invariant 0 <= i <= |templates|
      invariant cats == HierarchyOf(templates[..i])
      invariant nodes == [RootNode] + CategoryNodes(cats.keys)
      invariant edges == CategoryEdges(cats.keys)
    {
      var t := templates[i];
      var cat := Category(t);
      assert templates[..i + 1][..i] == templates[..i];
      if cat !in cats.groups {
        nodes := nodes + [CategoryNode(cat)];
        edges := edges + [CategoryEdge(cat)];
        assert (cats.keys + [cat])[..|cats.keys|] == cats.keys;
        cats := Hierarchy(cats.keys + [cat], cats.groups[cat := []]);
      }
      cats := cats.(groups := cats.groups[cat := cats.groups[cat] + [t.name]]);
      i := i + 1;
    }
    assert templates[..i] == templates;
    HierarchyValid(templates);
    HierarchyDomain(templates);
    HierarchyKeysFirstSeen(templates);
    HierarchyGroups(templates);
  }

  /** Second pass: for each category in insertion order, one node and one edge per name. */
  method AppendTemplates(cats: Hierarchy, nodes0: seq<Node>, edges0: seq<Edge>) returns (nodes: seq<Node>, edges: seq<Edge>)
    requires cats.Valid()
    ensures nodes == nodes0 + Emit(cats.keys, cats.groups, TemplateNode)
    ensures edges == edges0 + Emit(cats.keys, cats.groups, TemplateEdge)
  {
    nodes, edges := nodes0, edges0;
    var k := 0;
    while k < |cats.keys|
      invariant 0 <= k <= |cats.keys|
      invariant nodes == nodes0 + Emit(cats.keys[..k], cats.groups, TemplateNode)
      invariant edges == edges0 + Emit(cats.keys[..k], cats.groups, TemplateEdge)
    {
      var cat := cats.keys[k];
      assert cat in cats.keys;
      var items := cats.groups[cat];
      assert GroupOf(cats.groups, cat) == items;
      nodes, edges := AppendGroup(cat, items, nodes, edges);
      EmitNext(cats.keys, k, cats.groups, TemplateNode);
      EmitNext(cats.keys, k, cats.groups, TemplateEdge);
      ConcatAssoc(nodes0, Emit(cats.keys[..k], cats.groups, TemplateNode), Tagged(cat, items, TemplateNode));
      ConcatAssoc(edges0, Emit(cats.keys[..k], cats.groups, TemplateEdge), Tagged(cat, items, TemplateEdge));
      k := k + 1;
    }
    assert cats.keys[..k] == cats.keys;
  }

  /** The inner loop: one node and one edge per name of one category. */
  method AppendGroup(cat: string, items: seq<string>, nodes0: seq<Node>, edges0: seq<Edge>) returns (nodes: seq<Node>, edges: seq<Edge>)
    ensures nodes == nodes0 + Tagged(cat, items, TemplateNode)
    ensures edges == edges0 + Tagged(cat, items, TemplateEdge)
  {
    nodes, edges := nodes0, edges0;
    var j := 0;
    while j < |items|
      invariant 0 <= j <= |items|
      invariant nodes == nodes0 + Tagged(cat, items[..j], TemplateNode)
      invariant edges == edges0 + Tagged(cat, items[..j], TemplateEdge)
    {
      assert items[..j + 1][..j] == items[..j];
      nodes := nodes + [TemplateNode(cat, items[j])];
      edges := edges + [TemplateEdge(cat, items[j])];
      j := j + 1;
    }
    assert items[..j] == items;
  }

  /** The node list the page hands to the graph widget. */
  function FlowchartNodes(templates: seq<Template>): (r: seq<Node>)
    ensures |r| == 1 + |HierarchyOf(templates).keys| + |templates| && r[0] == RootNode
  {
    var h := HierarchyOf(templates);
    GroupSizesSumToCatalog(templates);
    EmitLength(h.keys, h.groups, TemplateNode);
    [RootNode] + CategoryNodes(h.keys) + Emit(h.keys, h.groups, TemplateNode)
  }

  /** The edge list the page hands to the graph widget. */
  function FlowchartEdges(templates: seq<Template>): (r: seq<Edge>)
    ensures |r| == |HierarchyOf(templates).keys| + |templates|
  {
    var h := HierarchyOf(templates);
    GroupSizesSumToCatalog(templates);
    EmitLength(h.keys, h.groups, TemplateEdge);
    CategoryEdges(h.keys) + Emit(h.keys, h.groups, TemplateEdge)
  }

  /** Both passes together: the `cats` dictionary and the `nodes` and `edges` lists. */
  method BuildFlowchart(templates: seq<Template>) returns (cats: Hierarchy, nodes: seq<Node>, edges: seq<Edge>)
    ensures cats == HierarchyOf(templates) && cats.Valid()
    ensures cats.keys == FirstSeen(CategoriesOf(templates))
    ensures forall c :: c in cats.groups ==> cats.groups[c] == NamesIn(templates, c)
    ensures nodes == FlowchartNodes(templates) && edges == FlowchartEdges(templates)
    ensures |nodes| == 1 + |HierarchyOf(templates).keys| + |templates| && nodes[0] == RootNode
    ensures |edges| == |HierarchyOf(templates).keys| + |templates|
    ensures forall i :: 0 <= i < |cats.keys| ==>
              nodes[1 + i] == CategoryNode(cats.keys[i]) && edges[i] == Edge(RootId, cats.keys[i])
    ensures forall j :: |cats.keys| <= j < |edges| ==> edges[j].source in cats.keys
  {
    var nodes1, edges1;
    cats, nodes1, edges1 := GroupByCategory(templates);
    nodes, edges := AppendTemplates(cats, nodes1, edges1);
    ConcatAssoc([RootNode], CategoryNodes(cats.keys), Emit(cats.keys, cats.groups, TemplateNode));
    FlowchartNodesShape(templates);
    FlowchartEdgesShape(templates);
  }

  // ---------------------------------------------------------------------------
  // Lemmas

  lemma ConcatAssoc<T>(a: seq<T>, b: seq<T>, c: seq<T>)
    ensures (a + b) + c == a + (b + c)
  {
  }

  lemma SameLength<T>(a: seq<T>, b: seq<T>)
    requires multiset(a) == multiset(b)
    ensures |a| == |b|
  {
    assert |multiset(a)| == |a| && |multiset(b)| == |b|;
  }

  /** The categories of one more record. */
  lemma CategoriesSnoc(templates: seq<Template>, t: Template)
    ensures CategoriesOf(templates + [t]) == CategoriesOf(templates) + [Category(t)]
  {
    var s := templates + [t];
    assert s[..|s| - 1] == templates;
  }

  /** One more record: the loop's dictionary after it, spelled out by case. */
  lemma HierarchySnoc(templates: seq<Template>, t: Template)
    ensures var h := HierarchyOf(templates); var c := Category(t);
      HierarchyOf(templates + [t])
        == if c in h.groups then Hierarchy(h.keys, h.groups[c := h.groups[c] + [t.name]])
           else Hierarchy(h.keys + [c], h.groups[c := [t.name]])
  {
    var s := templates + [t];
    assert s[..|s| - 1] == templates;
    var empty: seq<string> := [];
    assert empty + [t.name] == [t.name];
  }

  /** The dictionary has a key for exactly the defaulted categories of the records. */
  lemma {:induction false} HierarchyDomain(templates: seq<Template>)
    ensures forall c :: c in HierarchyOf(templates).groups <==> c in CategoriesOf(templates)
    decreases |templates|
  {
    if templates != [] {
      var prefix := templates[..|templates| - 1];
      var t := templates[|templates| - 1];
      assert prefix + [t] == templates;
      HierarchyDomain(prefix);
      HierarchySnoc(prefix, t);
      CategoriesSnoc(prefix, t);
    }
  }

  /** The dictionary's key order is the categories in order of first appearance. */
  lemma {:induction false} HierarchyKeysFirstSeen(templates: seq<Template>)
    ensures HierarchyOf(templates).keys == FirstSeen(CategoriesOf(templates))
    decreases |templates|
  {
    if templates != [] {
      var prefix := templates[..|templates| - 1];
      var t := templates[|templates| - 1];
      assert prefix + [t] == templates;
      HierarchyKeysFirstSeen(prefix);
      HierarchyDomain(prefix);
      HierarchySnoc(prefix, t);
      CategoriesSnoc(prefix, t);
      var cs := CategoriesOf(prefix);
      assert (cs + [Category(t)])[..|cs|] == cs;
    }
  }

  /** The list under each key holds the names of that category's records, in catalog order. */
  lemma {:induction false} HierarchyGroups(templates: seq<Template>)
    ensures var h := HierarchyOf(templates);
      forall c :: c in h.groups ==> h.groups[c] == NamesIn(templates, c)
    decreases |templates|
  {
    if templates != [] {
      var prefix := templates[..|templates| - 1];
      var t := templates[|templates| - 1];
      assert prefix + [t] == templates;
      HierarchyGroups(prefix);
      HierarchyDomain(prefix);
      HierarchySnoc(prefix, t);
      var h := HierarchyOf(prefix);
      var c := Category(t);
      if c !in h.groups {
        NamesInAbsent(prefix, c);
      }
      forall k | k in HierarchyOf(templates).groups
        ensures HierarchyOf(templates).groups[k] == NamesIn(templates, k)
      {
        StepNames(prefix, t, k);
      }
    }
  }

  /** The loop's dictionary keeps its invariant: distinct keys, the same as the map's. */
  lemma {:induction false} HierarchyValid(templates: seq<Template>)
    ensures HierarchyOf(templates).Valid()
  {
    HierarchyDomain(templates);
    HierarchyKeysFirstSeen(templates);
  }

  lemma StepNames(templates: seq<Template>, t: Template, k: string)
    ensures NamesIn(templates + [t], k) == NamesIn(templates, k) + (if Category(t) == k then [t.name] else [])
  {
    var s := templates + [t];
    assert s[..|s| - 1] == templates;
  }

  /** A category no record carries has an empty name list. */
  lemma {:induction false} NamesInAbsent(templates: seq<Template>, category: string)
    requires category !in CategoriesOf(templates)
    ensures NamesIn(templates, category) == []
    decreases |templates|
  {
    if templates != [] {
      var prefix := templates[..|templates| - 1];
      assert CategoriesOf(templates)[..|templates| - 1] == CategoriesOf(prefix);
      assert CategoryOf: Category(templates[|templates| - 1]) == CategoriesOf(templates)[|templates| - 1];
      NamesInAbsent(prefix, category);
    }
  }

  /** Where x first appears in xs + [y]. */
  lemma FirstIndexSnoc(xs: seq<string>, y: string, x: string)
    requires x in xs + [y]
    ensures FirstIndex(xs + [y], x) == if x in xs then FirstIndex(xs, x) else |xs|
  {
    var s := xs + [y];
    assert forall k :: 0 <= k < |xs| ==> s[k] == xs[k];
    if x in xs {
      var q := FirstIndex(xs, x);
      assert s[q] == x;
    }
  }

  /** FirstSeen lists the values in the order of their first appearance. */
  lemma {:induction false} FirstSeenOrder(xs: seq<string>)
    ensures forall i, j :: 0 <= i < j < |FirstSeen(xs)| ==>
              FirstIndex(xs, FirstSeen(xs)[i]) < FirstIndex(xs, FirstSeen(xs)[j])
    decreases |xs|
  {
    if xs != [] {
      var p := xs[..|xs| - 1];
      var y := xs[|xs| - 1];
      assert xs == p + [y];
      var prior := FirstSeen(p);
      FirstSeenOrder(p);
      var r := FirstSeen(xs);
      forall i, j | 0 <= i < j < |r|
        ensures FirstIndex(xs, r[i]) < FirstIndex(xs, r[j])
      {
        assert r[i] in p;
        FirstIndexSnoc(p, y, r[i]);
        FirstIndexSnoc(p, y, r[j]);
        if j < |prior| {
          assert r[i] == prior[i] && r[j] == prior[j];
        }
      }
    }
  }

  /** The dictionary's keys: distinct, exactly the defaulted categories, in the
      order in which each category first occurs in the catalog. */
  lemma HierarchyKeys(templates: seq<Template>)
    ensures var keys := HierarchyOf(templates).keys;
      (forall i, j :: 0 <= i < j < |keys| ==> keys[i] != keys[j])
      && (forall c :: c in keys <==> c in CategoriesOf(templates))
      && (forall i, j :: 0 <= i < j < |keys| ==>
            FirstIndex(CategoriesOf(templates), keys[i]) < FirstIndex(CategoriesOf(templates), keys[j]))
  {
    HierarchyKeysFirstSeen(templates);
    FirstSeenOrder(CategoriesOf(templates));
  }

  /** Adding one name to the list of a key that occurs in `keys` adds exactly
      one item to what the nested loop emits. */
  lemma {:induction false} EmitAddOne<T>(keys: seq<string>, groups: map<string, seq<string>>, c: string, name: string, f: (string, string) -> T)
    requires forall i, j :: 0 <= i < j < |keys| ==> keys[i] != keys[j]
    requires c in keys && c in groups
    ensures var g := groups[c := groups[c] + [name]];
      multiset(Emit(keys, g, f)) == multiset(Emit(keys, groups, f)) + multiset{f(c, name)}
    decreases |keys|
  {
    var g := groups[c := groups[c] + [name]];
    var prefix := keys[..|keys| - 1];
    var last := keys[|keys| - 1];
    if last == c {
      assert c !in prefix;
      EmitUnchanged(prefix, groups, c, groups[c] + [name], f);
      assert Tagged(c, groups[c] + [name], f) == Tagged(c, groups[c], f) + [f(c, name)] by {
        assert (groups[c] + [name])[..|groups[c]|] == groups[c];
      }
    } else {
      assert c in prefix;
      EmitAddOne(prefix, groups, c, name, f);
    }
  }

  /** Changing the list of a key outside `keys` does not change what is emitted. */
  lemma {:induction false} EmitUnchanged<T>(keys: seq<string>, groups: map<string, seq<string>>, c: string, v: seq<string>, f: (string, string) -> T)
    requires c !in keys
    ensures Emit(keys, groups[c := v], f) == Emit(keys, groups, f)
    decreases |keys|
  {
    if keys != [] {
      var prefix := keys[..|keys| - 1];
      EmitUnchanged(prefix, groups, c, v, f);
    }
  }

  /** The nested loop emits f(category, name) once for every record of the catalog:
      the same items as a walk over the catalog, regrouped by category. */
  lemma {:induction false} EmitPermutesCatalog<T>(templates: seq<Template>, f: (string, string) -> T)
    ensures var h := HierarchyOf(templates);
      multiset(Emit(h.keys, h.groups, f)) == multiset(CatalogItems(templates, f))
    decreases |templates|
  {
    if templates != [] {
      var prefix := templates[..|templates| - 1];
      var t := templates[|templates| - 1];
      assert prefix + [t] == templates;
      EmitPermutesCatalog(prefix, f);
      EmitGrowsByOne(prefix, t, f);
      assert CatalogItems(templates, f) == CatalogItems(prefix, f) + [f(Category(t), t.name)];
    }
  }

  /** One more record makes the nested loop emit exactly one more item. */
  lemma EmitGrowsByOne<T>(prefix: seq<Template>, t: Template, f: (string, string) -> T)
    ensures var h := HierarchyOf(prefix); var h' := HierarchyOf(prefix + [t]);
      multiset(Emit(h'.keys, h'.groups, f)) == multiset(Emit(h.keys, h.groups, f)) + multiset{f(Category(t), t.name)}
  {
    var c := Category(t);
    var h := HierarchyOf(prefix);
    HierarchyValid(prefix);
    HierarchySnoc(prefix, t);
    if c in h.groups {
      EmitAddOne(h.keys, h.groups, c, t.name, f);
    } else {
      EmitNewKey(h.keys, h.groups, c, t.name, f);
    }
  }

  /** A key not yet walked, added at the end with a one-name list, adds exactly that
      name's item at the end of what the nested loop emits. */
  lemma EmitNewKey<T>(keys: seq<string>, groups: map<string, seq<string>>, c: string, name: string, f: (string, string) -> T)
    requires c !in keys
    ensures Emit(keys + [c], groups[c := [name]], f) == Emit(keys, groups, f) + [f(c, name)]
  {
    var g := groups[c := [name]];
    var keys' := keys + [c];
    assert keys'[..|keys'| - 1] == keys;
    EmitUnchanged(keys, groups, c, [name], f);
    assert Tagged(c, GroupOf(g, c), f) == [f(c, name)];
  }

  /** |Emit| is the total size of the lists it walks. */
  lemma {:induction false} EmitLength<T>(keys: seq<string>, groups: map<string, seq<string>>, f: (string, string) -> T)
    ensures |Emit(keys, groups, f)| == TotalSize(keys, groups)
    decreases |keys|
  {
    if keys != [] {
      var prefix := keys[..|keys| - 1];
      EmitLength(prefix, groups, f);
    }
  }

  /** The name lists of the hierarchy have lengths summing to the catalog size. */
  lemma {:induction false} GroupSizesSumToCatalog(templates: seq<Template>)
    ensures var h := HierarchyOf(templates);
      TotalSize(h.keys, h.groups) == |templates|
  {
    var h := HierarchyOf(templates);
    EmitPermutesCatalog(templates, TemplateEdge);
    EmitLength(h.keys, h.groups, TemplateEdge);
    SameLength(Emit(h.keys, h.groups, TemplateEdge), CatalogItems(templates, TemplateEdge));
  }

  /** Splits the node list into root, category part and template part. */
  lemma NodesSplit(templates: seq<Template>)
    ensures var h := HierarchyOf(templates); var nodes := FlowchartNodes(templates);
      && |nodes| == 1 + |h.keys| + |Emit(h.keys, h.groups, TemplateNode)|
      && nodes[0] == RootNode
      && nodes[1..1 + |h.keys|] == CategoryNodes(h.keys)
      && nodes[1 + |h.keys|..] == Emit(h.keys, h.groups, TemplateNode)
  {
    var h := HierarchyOf(templates);
    var cats := CategoryNodes(h.keys);
    var tail := Emit(h.keys, h.groups, TemplateNode);
    ConcatAssoc([RootNode], cats, tail);
    var nodes := [RootNode] + (cats + tail);
    assert nodes[1..] == cats + tail;
    assert (cats + tail)[..|cats|] == cats && (cats + tail)[|cats|..] == tail;
  }

  /** Splits the edge list into category part and template part. */
  lemma EdgesSplit(templates: seq<Template>)
    ensures var h := HierarchyOf(templates); var edges := FlowchartEdges(templates);
      && |edges| == |h.keys| + |Emit(h.keys, h.groups, TemplateEdge)|
      && edges[..|h.keys|] == CategoryEdges(h.keys)
      && edges[|h.keys|..] == Emit(h.keys, h.groups, TemplateEdge)
  {
  }

  /** The node list: the root first, one node per category in key order, then one
      node per record regrouped by category. */
  lemma FlowchartNodesShape(templates: seq<Template>)
    ensures var keys := HierarchyOf(templates).keys; var nodes := FlowchartNodes(templates);
      && |nodes| == 1 + |keys| + |templates| && nodes[0] == RootNode
      && (forall i :: 0 <= i < |keys| ==> nodes[1 + i] == CategoryNode(keys[i]))
      && multiset(nodes[1 + |keys|..]) == multiset(CatalogItems(templates, TemplateNode))
  {
    var h := HierarchyOf(templates);
    var nodes := FlowchartNodes(templates);
    NodesSplit(templates);
    EmitPermutesCatalog(templates, TemplateNode);
    SameLength(Emit(h.keys, h.groups, TemplateNode), CatalogItems(templates, TemplateNode));
    forall i | 0 <= i < |h.keys| ensures nodes[1 + i] == CategoryNode(h.keys[i]) {
      assert nodes[1 + i] == nodes[1..1 + |h.keys|][i];
    }
  }

  /** The edge list: one root edge per category in key order, then one edge per
      record regrouped by category, each leaving a category node. */
  lemma FlowchartEdgesShape(templates: seq<Template>)
    ensures var keys := HierarchyOf(templates).keys; var edges := FlowchartEdges(templates);
      && |edges| == |keys| + |templates|
      && (forall i :: 0 <= i < |keys| ==> edges[i] == Edge(RootId, keys[i]))
      && multiset(edges[|keys|..]) == multiset(CatalogItems(templates, TemplateEdge))
      && (forall j :: |keys| <= j < |edges| ==> edges[j].source in keys)
  {
    var h := HierarchyOf(templates);
    var edges := FlowchartEdges(templates);
    var tail := Emit(h.keys, h.groups, TemplateEdge);
    EdgesSplit(templates);
    EmitPermutesCatalog(templates, TemplateEdge);
    SameLength(tail, CatalogItems(templates, TemplateEdge));
    forall i | 0 <= i < |h.keys| ensures edges[i] == Edge(RootId, h.keys[i]) {
      assert edges[i] == edges[..|h.keys|][i];
    }
    EmitSources(h.keys, h.groups);
    forall j | |h.keys| <= j < |edges|
      ensures edges[j].source in h.keys
    {
      assert edges[j] == tail[j - |h.keys|];
      assert tail[j - |h.keys|] in tail;
    }
  }

  /** Every edge the nested loop emits leaves the node of one of the walked keys. */
  lemma {:induction false} EmitSources(keys: seq<string>, groups: map<string, seq<string>>)
    ensures forall e :: e in Emit(keys, groups, TemplateEdge) ==> e.source in keys
    decreases |keys|
  {
    if keys != [] {
      var prefix := keys[..|keys| - 1];
      var last := keys[|keys| - 1];
      EmitSources(prefix, groups);
      var block := Tagged(last, GroupOf(groups, last), TemplateEdge);
      forall e | e in Emit(keys, groups, TemplateEdge) ensures e.source in keys {
        if e in Emit(prefix, groups, TemplateEdge) {
          assert e.source in prefix;
        } else {
          assert e in block;
        }
      }
    }
  }

  /** Every record has its edge, from its own category to its name. */
  lemma {:induction false} RecordHasEdge(templates: seq<Template>, i: nat)
    requires i < |templates|
    ensures var h := HierarchyOf(templates);
      Edge(Category(templates[i]), templates[i].name) in Emit(h.keys, h.groups, TemplateEdge)
  {
    var h := HierarchyOf(templates);
    var items := CatalogItems(templates, TemplateEdge);
    EmitPermutesCatalog(templates, TemplateEdge);
    assert items[i] in multiset(items);
  }

  /** The branch of category c lists the same templates, in the same order, as the
      template list shows when c is selected and the search box is empty. */
  lemma {:induction false} GroupMatchesCategoryView(templates: seq<Template>, category: string)
    requires category != AllCategories
    ensures NamesIn(templates, category) == NamesOf(TemplateFilter.Filtered(templates, "", category))
    decreases |templates|
  {
    if templates != [] {
      var prefix := templates[..|templates| - 1];
      var t := templates[|templates| - 1];
      GroupMatchesCategoryView(prefix, category);
      ContainsIffOccurs(Lower(""), Lower(t.name));
      assert TemplateFilter.TextMatches(t, "");
      var shown := TemplateFilter.Filtered(prefix, "", category);
      assert (shown + [t])[..|shown|] == shown;
    }
  }

  /** The names of a list of records. */
  function NamesOf(templates: seq<Template>): (r: seq<string>)
    ensures |r| == |templates| && forall i :: 0 <= i < |templates| ==> r[i] == templates[i].name
  {
    if templates == [] then [] else NamesOf(templates[..|templates| - 1]) + [templates[|templates| - 1].name]
  }
}
