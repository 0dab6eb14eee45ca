/** The URL parameters the sidebar writes for a filter selection
    (`applyFilters`). Parameters are a key/value map; the order in which
    `URLSearchParams` serialises them is not modelled. */
module FilterCodec {
  import opened Options
  import opened Decimal

  type Params = map<string, string>

  /** The price range as the two-element array `[low, high]` the slider edits. */
  datatype PriceRange = PriceRange(low: int, high: int)

  /** `[0, 2000]`, the slider's bounds and what "Clear all" restores. */
  const DefaultPriceRange := PriceRange(0, 2000)

  const CategoryKey := "category"
  const MinPriceKey := "minPrice"
  const MaxPriceKey := "maxPrice"
  const RatingKey := "rating"

  /** The only keys the sidebar ever writes. */
  const FilterKeys: set<string> := {CategoryKey, MinPriceKey, MaxPriceKey, RatingKey}

  /** JavaScript truthiness of a category value: `undefined`/`null` and `""` are falsy. */
  predicate Truthy(category: Option<string>): (truthy: bool)
    ensures category.None? ==> !truthy
    ensures category == Some("") ==> !truthy
    ensures category.Some? && category.value != "" ==> truthy
  {
    category.Some? && category.value != ""
  }

  /** The parameter set `applyFilters` hands to `setSearchParams` once the
      category, rating and price range in use are known. */
  function Encode(category: Option<string>, rating: int, price: PriceRange): (params: Params)
    ensures params.Keys <= FilterKeys
    ensures CategoryKey in params <==> Truthy(category)
    ensures Truthy(category) ==> params[CategoryKey] == category.value
    ensures MinPriceKey in params && params[MinPriceKey] == IntToString(price.low)
    ensures MaxPriceKey in params && params[MaxPriceKey] == IntToString(price.high)
    ensures RatingKey in params <==> rating > 0
    ensures rating > 0 ==> params[RatingKey] == IntToString(rating)
  {
    var empty: Params := map[];
    var withCategory := if Truthy(category) then empty[CategoryKey := category.value] else empty;
    var withPrices := withCategory[MinPriceKey := IntToString(price.low)][MaxPriceKey := IntToString(price.high)];
    if rating > 0 then withPrices[RatingKey := IntToString(rating)] else withPrices
  }

  /** A parameter set the sidebar can emit: the empty set written by "Clear all",
      or a set carrying both price bounds, a non-empty category if any, and a
      positive rating if any. */
  predicate WellFormed(params: Params) {
    && params.Keys <= FilterKeys
    && (params != map[] ==> MinPriceKey in params && MaxPriceKey in params)
    && (CategoryKey in params ==> params[CategoryKey] != "")
    && (RatingKey in params ==> IsPositiveNumeral(params[RatingKey]))
  }

  /** The string form of a positive integer: digits without a leading zero. */
  predicate IsPositiveNumeral(s: string) {
    |s| >= 1 && AllDigits(s) && s[0] != '0'
  }

  lemma EncodeWellFormed(category: Option<string>, rating: int, price: PriceRange)
    ensures WellFormed(Encode(category, rating, price))
    ensures Encode(category, rating, price) != map[]
  {
  }

  /** What a selection means once encoded: the category only if truthy, the
      rating only if positive (0 is "All Ratings"). */
  datatype Selection = Selection(category: string, rating: nat, price: PriceRange)

  function Meaning(category: Option<string>, rating: int, price: PriceRange): Selection {
    Selection(if Truthy(category) then category.value else "", if rating > 0 then rating else 0, price)
  }

  /** Two selections give the same parameters exactly when they mean the same
      filter: no information beyond the meaning is lost or added. */
  lemma EncodeDistinguishesMeaning(c1: Option<string>, r1: int, p1: PriceRange,
                                   c2: Option<string>, r2: int, p2: PriceRange)
    ensures Encode(c1, r1, p1) == Encode(c2, r2, p2) <==> Meaning(c1, r1, p1) == Meaning(c2, r2, p2)
  {
    var e1, e2 := Encode(c1, r1, p1), Encode(c2, r2, p2);
    if e1 == e2 {
      IntToStringInjective(p1.low, p2.low);
      IntToStringInjective(p1.high, p2.high);
      if r1 > 0 { IntToStringInjective(r1, r2); }
    }
    if Meaning(c1, r1, p1) == Meaning(c2, r2, p2) {
      assert e1.Keys == e2.Keys;
      assert forall k :: k in e1 ==> e1[k] == e2[k];
    }
  }

  /** Changing the category changes nothing but the `category` key. */
  lemma CategoryChangeKeepsRest(c: Option<string>, c': Option<string>, rating: int, price: PriceRange)
    ensures Encode(c', rating, price) - {CategoryKey} == Encode(c, rating, price) - {CategoryKey}
  {
  }

  /** Changing the rating changes nothing but the `rating` key. */
  lemma RatingChangeKeepsRest(category: Option<string>, r: int, r': int, price: PriceRange)
    ensures Encode(category, r', price) - {RatingKey} == Encode(category, r, price) - {RatingKey}
  {
  }

  /** Changing the price range changes nothing but the two price keys. */
  lemma PriceChangeKeepsRest(category: Option<string>, rating: int, p: PriceRange, p': PriceRange)
    ensures Encode(category, rating, p') - {MinPriceKey, MaxPriceKey}
         == Encode(category, rating, p) - {MinPriceKey, MaxPriceKey}
  {
  }

  /** category "shoes", price 50..300, rating 0 encodes to
      {category: "shoes", minPrice: "50", maxPrice: "300"}; rating 4 adds rating "4". */
  lemma ShoesScenario()
    ensures Encode(Some("shoes"), 0, PriceRange(50, 300))
         == map[CategoryKey := "shoes", MinPriceKey := "50", MaxPriceKey := "300"]
    ensures Encode(Some("shoes"), 4, PriceRange(50, 300))
         == map[CategoryKey := "shoes", MinPriceKey := "50", MaxPriceKey := "300", RatingKey := "4"]
  {
    assert NatToString(5) == "5";
    assert NatToString(50) == "50";
    assert NatToString(3) == "3";
    assert NatToString(30) == "30";
    assert NatToString(300) == "300";
    assert NatToString(4) == "4";
  }
}
