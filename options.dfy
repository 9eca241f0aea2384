/** The category selectbox: "All" followed by sorted(set(defaulted categories)). */
module CategoryOptions {
  import opened Text
  import opened Catalog

  /** Every element is smaller than every later one: sorted with no duplicates. */
  predicate StrictlySorted(s: seq<string>)
  {
    forall i, j :: 0 <= i < j < |s| ==> Less(s[i], s[j])
  }

  /** Inserts x into a strictly sorted list, skipping it when already present. */
  function Insert(x: string, s: seq<string>): (r: seq<string>)
    requires StrictlySorted(s)
    ensures StrictlySorted(r)
    ensures forall z :: z in r <==> z in s || z == x
  {
    if s == [] then [x]
    else if x == s[0] then s
    else if Less(x, s[0]) then
      assert forall j :: 0 < j < |s| ==> Less(x, s[j]) by {
        forall j | 0 < j < |s| ensures Less(x, s[j]) { LessTransitive(x, s[0], s[j]); }
      }
      [x] + s
    else
      LessTotal(x, s[0]);
      var tail := Insert(x, s[1..]);
      assert forall z :: z in tail ==> Less(s[0], z) by {
        forall z | z in tail ensures Less(s[0], z) {
          if z != x {
            var j :| 0 <= j < |s[1..]| && s[1..][j] == z;
            assert s[j + 1] == z;
          }
        }
      }
      [s[0]] + tail
  }

  /** sorted(set(xs)): the distinct values of xs in increasing order. */
  function SortedDistinct(xs: seq<string>): (r: seq<string>)
    ensures StrictlySorted(r)
    ensures forall z :: z in r <==> z in xs
  {
    if xs == [] then []
    else Insert(xs[|xs| - 1], SortedDistinct(xs[..|xs| - 1]))
  }

  /** A strictly sorted list has no duplicates. */
  lemma StrictlySortedDistinct(s: seq<string>)
    requires StrictlySorted(s)
    ensures forall i, j :: 0 <= i < j < |s| ==> s[i] != s[j]
  {
    forall i, j | 0 <= i < j < |s| ensures s[i] != s[j] {
      if s[i] == s[j] {
        LessIrreflexive(s[i]);
      }
    }
  }

  /** Two strictly sorted lists with the same elements are equal: a sorted set
      listing is determined by the set alone. */
  lemma {:induction false} StrictlySortedUnique(a: seq<string>, b: seq<string>)
    requires StrictlySorted(a) && StrictlySorted(b)
    requires forall z :: z in a <==> z in b
    ensures a == b
    decreases |a|
  {
    if a != [] { assert a[0] in b; }
    if b != [] { assert b[0] in a; }
    if a != [] && b != [] {
      if a[0] != b[0] {
        var k :| 0 <= k < |a| && a[k] == b[0];
        var m :| 0 <= m < |b| && b[m] == a[0];
        assert k > 0 && m > 0;
        LessAsymmetric(a[0], a[k]);
        assert false;
      }
      StrictlySortedDistinct(a);
      StrictlySortedDistinct(b);
      forall z ensures z in a[1..] <==> z in b[1..] {
        if z in a[1..] {
          var k :| 0 <= k < |a[1..]| && a[1..][k] == z;
          assert z in b && z != b[0];
          var m :| 0 <= m < |b| && b[m] == z;
          assert b[1..][m - 1] == z;
        }
        if z in b[1..] {
          var m :| 0 <= m < |b[1..]| && b[1..][m] == z;
          assert z in a && z != a[0];
          var k :| 0 <= k < |a| && a[k] == z;
          assert a[1..][k - 1] == z;
        }
      }
      StrictlySortedUnique(a[1..], b[1..]);
      assert a == [a[0]] + a[1..] && b == [b[0]] + b[1..];
    }
  }

  /** ["All"] + sorted(list(set(t.get("category", "Uncategorized") for t in templates))). */
  function Options(templates: seq<Template>): (r: seq<string>)
    ensures |r| >= 1 && r[0] == AllCategories
    ensures StrictlySorted(r[1..])
    ensures forall i, j :: 1 <= i < j < |r| ==> r[i] != r[j]
    ensures forall c :: c in r[1..] <==> exists t :: t in templates && Category(t) == c
  {
    var cats := SortedDistinct(CategoriesOf(templates));
    StrictlySortedDistinct(cats);
    assert forall c :: c in CategoriesOf(templates) <==> exists t :: t in templates && Category(t) == c by {
      forall c ensures c in CategoriesOf(templates) ==> exists t :: t in templates && Category(t) == c {
        if c in CategoriesOf(templates) {
          var i :| 0 <= i < |templates| && CategoriesOf(templates)[i] == c;
          assert templates[i] in templates;
        }
      }
      forall c ensures (exists t :: t in templates && Category(t) == c) ==> c in CategoriesOf(templates) {
        if exists t :: t in templates && Category(t) == c {
          var t :| t in templates && Category(t) == c;
          var i :| 0 <= i < |templates| && templates[i] == t;
          assert CategoriesOf(templates)[i] == c;
        }
      }
    }
    var r := [AllCategories] + cats;
    assert r[1..] == cats;
    r
  }

  /** The options after "All" are THE sorted listing of the categories: any strictly
      sorted list holding exactly the defaulted categories of the catalog equals them. */
  lemma OptionsCanonical(templates: seq<Template>, listing: seq<string>)
    requires StrictlySorted(listing)
    requires forall c :: c in listing <==> exists t :: t in templates && Category(t) == c
    ensures Options(templates)[1..] == listing
  {
    StrictlySortedUnique(Options(templates)[1..], listing);
  }
}
