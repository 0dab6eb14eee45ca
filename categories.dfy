/** Category extraction of the shop sidebar: the distinct `category` values of
    the fetched products, in first-seen order, and the order in which the
    sidebar lists them (`categories.sort()`, JavaScript's default comparison). */
module Categories {
  import opened Options

  /** A product as the sidebar sees it: only its `category`, which may be
      missing (`undefined`). */
  datatype Product = Product(category: Option<string>)

  /** The query result `data`; its `products` may be absent. */
  datatype ProductsResponse = ProductsResponse(products: Option<seq<Product>>)

  predicate NoDuplicates<T(==)>(xs: seq<T>) {
    forall i, j :: 0 <= i < j < |xs| ==> xs[i] != xs[j]
  }

  /** `Array.from(new Set(xs))`: each value once, in order of first occurrence. */
  function Distinct<T(==,!new)>(xs: seq<T>): (r: seq<T>)
    ensures NoDuplicates(r)
    ensures forall x :: x in r <==> x in xs
    ensures |r| <= |xs|
  {
    if xs == [] then []
    else
      var rest := Distinct(xs[..|xs| - 1]);
      var last := xs[|xs| - 1];
      assert forall x :: x in xs <==> x in xs[..|xs| - 1] || x == last;
      if last in rest then rest else rest + [last]
  }

  /** The index of the first occurrence of `x` in `xs`. */
  function FirstIndex<T(==)>(xs: seq<T>, x: T): (k: nat)
    requires x in xs
    ensures k < |xs| && xs[k] == x
    ensures forall i :: 0 <= i < k ==> xs[i] != x
  {
    if xs[0] == x then 0 else 1 + FirstIndex(xs[1..], x)
  }

  /** JavaScript's Set keeps insertion order: an earlier value of the result
      occurs for the first time earlier in the input. */
  lemma {:induction false} DistinctKeepsFirstSeenOrder<T(!new)>(xs: seq<T>, i: nat, j: nat)
    requires i < j < |Distinct(xs)|
    ensures FirstIndex(xs, Distinct(xs)[i]) < FirstIndex(xs, Distinct(xs)[j])
  {
    var init := xs[..|xs| - 1];
    var rest := Distinct(init);
    var r := Distinct(xs);
    assert r[i] in rest && r[i] in init;
    FirstIndexPrefix(init, xs, r[i]);
    if j < |rest| {
      assert r[i] == rest[i] && r[j] == rest[j];
      DistinctKeepsFirstSeenOrder(init, i, j);
      FirstIndexPrefix(init, xs, r[j]);
    } else {
      assert r[j] == xs[|xs| - 1] && r[j] !in init;
      assert FirstIndex(xs, r[j]) == |xs| - 1;
    }
  }

  lemma FirstIndexPrefix<T>(init: seq<T>, xs: seq<T>, x: T)
    requires init <= xs && x in init
    ensures FirstIndex(xs, x) == FirstIndex(init, x)
  {
    var k := FirstIndex(init, x);
    assert xs[k] == x;
  }

  /** The category of every product, in product order (`data.products.map(...)`). */
  function CategoryColumn(ps: seq<Product>): (cs: seq<Option<string>>)
    ensures |cs| == |ps|
    ensures forall i :: 0 <= i < |ps| ==> cs[i] == ps[i].category
  {
    seq(|ps|, i requires 0 <= i < |ps| => ps[i].category)
  }

  /** The `categories` constant of the sidebar (before sorting). */
  function ExtractCategories(data: Option<ProductsResponse>): (r: seq<Option<string>>)
    ensures (data.None? || data.value.products.None?) ==> r == []
    ensures NoDuplicates(r)
    ensures data.Some? && data.value.products.Some? ==>
              var ps := data.value.products.value;
              && (forall p :: p in ps ==> p.category in r)
              && (forall c :: c in r ==> exists p :: p in ps && p.category == c)
  {
    match data
    case Some(ProductsResponse(Some(ps))) =>
      var r := Distinct(CategoryColumn(ps));
      assert forall c :: c in CategoryColumn(ps) ==> exists p :: p in ps && p.category == c by {
        forall c | c in CategoryColumn(ps) ensures exists p :: p in ps && p.category == c {
          var i :| 0 <= i < |ps| && CategoryColumn(ps)[i] == c;
          assert ps[i] in ps;
        }
      }
      assert forall p :: p in ps ==> p.category in CategoryColumn(ps) by {
        forall p | p in ps ensures p.category in CategoryColumn(ps) {
          var i :| 0 <= i < |ps| && ps[i] == p;
          assert CategoryColumn(ps)[i] == p.category;
        }
      }
      r
    case _ => []
  }

  // ---------------------------------------------------------------------------
  // The display order: `Array.prototype.sort` with no comparator puts undefined
  // values last and orders the others by comparing their strings.

  /** Lexicographic order on strings, a proper prefix first. */
  predicate StrLe(a: string, b: string) {
    a == [] || (b != [] && (a[0] < b[0] || (a[0] == b[0] && StrLe(a[1..], b[1..]))))
  }

  /** The order `sort()` uses on the category list: strings ascending, then undefined. */
  predicate DisplayLe(x: Option<string>, y: Option<string>) {
    match (x, y)
    case (Some(a), Some(b)) => StrLe(a, b)
    case (Some(_), None) => true
    case (None, Some(_)) => false
    case (None, None) => true
  }

  lemma {:induction false} StrLeTotal(a: string, b: string)
    ensures StrLe(a, b) || StrLe(b, a)
  {
    if a != [] && b != [] && a[0] == b[0] {
      StrLeTotal(a[1..], b[1..]);
    }
  }

  lemma {:induction false} StrLeAntisymmetric(a: string, b: string)
    requires StrLe(a, b) && StrLe(b, a)
    ensures a == b
  {
    if a != [] && b != [] {
      StrLeAntisymmetric(a[1..], b[1..]);
      assert a == [a[0]] + a[1..] && b == [b[0]] + b[1..];
    }
  }

  lemma {:induction false} StrLeTransitive(a: string, b: string, c: string)
    requires StrLe(a, b) && StrLe(b, c)
    ensures StrLe(a, c)
  {
    if a != [] && b != [] && c != [] && a[0] == b[0] == c[0] {
      StrLeTransitive(a[1..], b[1..], c[1..]);
    }
  }

  lemma DisplayLeTotal(x: Option<string>, y: Option<string>)
    ensures DisplayLe(x, y) || DisplayLe(y, x)
  {
    if x.Some? && y.Some? { StrLeTotal(x.value, y.value); }
  }

  lemma DisplayLeAntisymmetric(x: Option<string>, y: Option<string>)
    requires DisplayLe(x, y) && DisplayLe(y, x)
    ensures x == y
  {
    if x.Some? && y.Some? { StrLeAntisymmetric(x.value, y.value); }
  }

  lemma DisplayLeTransitive(x: Option<string>, y: Option<string>, z: Option<string>)
    requires DisplayLe(x, y) && DisplayLe(y, z)
    ensures DisplayLe(x, z)
  {
    if x.Some? && y.Some? && z.Some? { StrLeTransitive(x.value, y.value, z.value); }
  }

  predicate Sorted(s: seq<Option<string>>) {
    forall i, j :: 0 <= i < j < |s| ==> DisplayLe(s[i], s[j])
  }

  /** A sorted list stays sorted when an element not above its head is put in front. */
  lemma SortedCons(x: Option<string>, s: seq<Option<string>>)
    requires Sorted(s)
    requires forall y :: y in s ==> DisplayLe(x, y)
    ensures Sorted([x] + s)
  {
    forall i, j | 0 <= i < j < |[x] + s| ensures DisplayLe(([x] + s)[i], ([x] + s)[j]) {
      if i == 0 { assert s[j - 1] in s; }
    }
  }

  /** Inserts `x` into a sorted list, before the first element not below it. */
  function Insert(x: Option<string>, s: seq<Option<string>>): (r: seq<Option<string>>)
    requires Sorted(s)
    ensures Sorted(r)
    ensures multiset(r) == multiset(s) + multiset{x}
  {
    if s == [] || DisplayLe(x, s[0]) then
      assert forall y :: y in s ==> DisplayLe(x, y) by {
        forall y | y in s ensures DisplayLe(x, y) {
          var k :| 0 <= k < |s| && s[k] == y;
          if k > 0 { DisplayLeTransitive(x, s[0], y); }
        }
      }
      SortedCons(x, s);
      [x] + s
    else
      var tail := Insert(x, s[1..]);
      assert s == [s[0]] + s[1..];
      assert forall y :: y in tail ==> DisplayLe(s[0], y) by {
        forall y | y in tail ensures DisplayLe(s[0], y) {
          assert y in multiset(tail);
          if y == x {
            DisplayLeTotal(x, s[0]);
          } else {
            assert y in multiset(s[1..]);
            var k :| 0 <= k < |s[1..]| && s[1..][k] == y;
            assert s[k + 1] == y;
          }
        }
      }
      SortedCons(s[0], tail);
      [s[0]] + tail
  }

  /** `categories.sort()`: the same values, in display order. */
  function SortForDisplay(s: seq<Option<string>>): (r: seq<Option<string>>)
    ensures Sorted(r)
    ensures multiset(r) == multiset(s)
  {
    if s == [] then []
    else
      assert s == s[..|s| - 1] + [s[|s| - 1]];
      Insert(s[|s| - 1], SortForDisplay(s[..|s| - 1]))
  }

  /** The list the sidebar renders below "All Categories". */
  function DisplayedCategories(data: Option<ProductsResponse>): (r: seq<Option<string>>)
    ensures Sorted(r)
    ensures multiset(r) == multiset(ExtractCategories(data))
  {
    SortForDisplay(ExtractCategories(data))
  }

  /** Sorting a list without duplicates gives a strictly ascending list of the
      same values: the rendered list has every category once, in order. */
  lemma DisplayedCategoriesAscending(data: Option<ProductsResponse>)
    ensures var r := DisplayedCategories(data);
            && (forall i, j :: 0 <= i < j < |r| ==> DisplayLe(r[i], r[j]) && r[i] != r[j])
            && (forall c :: c in r <==> c in ExtractCategories(data))
            && |r| == |ExtractCategories(data)|
  {
    var e := ExtractCategories(data);
    var r := DisplayedCategories(data);
    assert multiset(r) == multiset(e);
    assert forall c :: c in r <==> c in e by {
      forall c ensures c in r <==> c in e {
        assert c in r <==> c in multiset(r);
        assert c in e <==> c in multiset(e);
      }
    }
    assert |r| == |multiset(r)| == |multiset(e)| == |e|;
    forall i, j | 0 <= i < j < |r| ensures r[i] != r[j] {
      if r[i] == r[j] {
        NoDuplicatesCountOne(e, r[i]);
        TwoOccurrences(r, i, j);
        assert false;
      }
    }
  }

  lemma NoDuplicatesCountOne<T>(xs: seq<T>, x: T)
    requires NoDuplicates(xs)
    ensures multiset(xs)[x] <= 1
  {
    if xs != [] {
      var init := xs[..|xs| - 1];
      assert xs == init + [xs[|xs| - 1]];
      NoDuplicatesCountOne(init, x);
      if x == xs[|xs| - 1] {
        assert x !in init;
      }
    }
  }

  lemma TwoOccurrences<T>(xs: seq<T>, i: nat, j: nat)
    requires i < j < |xs| && xs[i] == xs[j]
    ensures multiset(xs)[xs[i]] >= 2
  {
    var x := xs[i];
    assert xs == xs[..i] + [x] + xs[i + 1..j] + [x] + xs[j + 1..];
  }

  /** The catalogue [shoes, bags, shoes] shows the categories bags, shoes. */
  lemma ShoesAndBagsScenario()
    ensures var data := Some(ProductsResponse(Some([Product(Some("shoes")), Product(Some("bags")), Product(Some("shoes"))])));
            && ExtractCategories(data) == [Some("shoes"), Some("bags")]
            && DisplayedCategories(data) == [Some("bags"), Some("shoes")]
  {
    var ps := [Product(Some("shoes")), Product(Some("bags")), Product(Some("shoes"))];
    ShoesBagsShoesDistinct(CategoryColumn(ps));
    ShoesBagsSorted([Some("shoes"), Some("bags")]);
  }

  lemma ShoesBagsShoesDistinct(col: seq<Option<string>>)
    requires col == [Some("shoes"), Some("bags"), Some("shoes")]
    ensures Distinct(col) == [Some("shoes"), Some("bags")]
  {
    var two := col[..2];
    assert two == [Some("shoes"), Some("bags")];
    assert two[..1] == [Some("shoes")];
    assert Distinct(two[..1]) == [Some("shoes")];
    assert Distinct(two) == [Some("shoes"), Some("bags")];
  }

  lemma ShoesBagsSorted(e: seq<Option<string>>)
    requires e == [Some("shoes"), Some("bags")]
    ensures SortForDisplay(e) == [Some("bags"), Some("shoes")]
  {
    assert e[..1] == [Some("shoes")];
    assert SortForDisplay(e[..1]) == [Some("shoes")];
    assert StrLe("bags", "shoes");
    assert Insert(Some("bags"), [Some("shoes")]) == [Some("bags"), Some("shoes")];
  }
}
