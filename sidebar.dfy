/** The selection controller of `ShopSidebar`: the props handed down by the
    URL-state owner, the local `priceRange` state, and the parameter sets passed
    to the `setSearchParams` callback. Each handler is one atomic step; the
    price-sync effect is the explicit step `ReceiveProps`. */
module Sidebar {
  import opened Options
  import opened Decimal
  import opened FilterCodec

  class ShopSidebar {
    // Props, already parsed from the URL by the owner of the URL state.
    var selectedCategory: Option<string>
    var minPrice: int
    var maxPrice: int
    var selectedRating: int

    // Local state: `const [priceRange, setPriceRange] = useState(...)`.
    var priceRange: PriceRange

    // The argument of every `setSearchParams` call so far, oldest first.
    var emitted: seq<Params>

    /** Everything handed to `setSearchParams` is a parameter set the sidebar can write. */
    ghost predicate Valid()
      reads this
    {
      forall i :: 0 <= i < |emitted| ==> WellFormed(emitted[i])
    }

    /** The parameters that encode the selection as it stands. */
    function CurrentParams(): (params: Params)
      reads this
      ensures MinPriceKey in params && params[MinPriceKey] == IntToString(priceRange.low)
      ensures MaxPriceKey in params && params[MaxPriceKey] == IntToString(priceRange.high)
    {
      Encode(selectedCategory, selectedRating, priceRange)
    }

    /** The first render: local price state starts at `[minPrice, maxPrice]`. */
    constructor (selectedCategory: Option<string>, minPrice: int, maxPrice: int, selectedRating: int)
      ensures this.selectedCategory == selectedCategory && this.selectedRating == selectedRating
      ensures this.minPrice == minPrice && this.maxPrice == maxPrice
      ensures priceRange == PriceRange(minPrice, maxPrice)
      ensures emitted == []
      ensures Valid()
    {
      this.selectedCategory := selectedCategory;
      this.minPrice := minPrice;
      this.maxPrice := maxPrice;
      this.selectedRating := selectedRating;
      priceRange := PriceRange(minPrice, maxPrice);
      emitted := [];
    }

    /** `applyFilters`: each argument left `undefined` (None) falls back to the
        current selection; a fresh parameter set is built and emitted. */
    method ApplyFilters(newCategory: Option<string>, newRating: Option<int>, newPriceRange: Option<PriceRange>)
      requires Valid()
      modifies this`emitted
      ensures Valid()
      ensures emitted == old(emitted) + [Encode(newCategory.OrElse(selectedCategory),
                                                newRating.GetOr(selectedRating),
                                                newPriceRange.GetOr(priceRange))]
    {
      var params: Params := map[];
      var categoryToUse := newCategory.OrElse(selectedCategory);
      var ratingToUse := newRating.GetOr(selectedRating);
      var priceToUse := newPriceRange.GetOr(priceRange);
      if Truthy(categoryToUse) {
        params := params[CategoryKey := categoryToUse.value];
      }
      params := params[MinPriceKey := IntToString(priceToUse.low)];
      params := params[MaxPriceKey := IntToString(priceToUse.high)];
      if ratingToUse > 0 {
        params := params[RatingKey := IntToString(ratingToUse)];
      }
      assert params == Encode(categoryToUse, ratingToUse, priceToUse);
      EncodeWellFormed(categoryToUse, ratingToUse, priceToUse);
      emitted := emitted + [params];
    }

    /** `handleCategoryChange`: a new category (or "" for "All Categories") with
        the current rating and price range. */
    method HandleCategoryChange(category: Option<string>)
      requires Valid()
      modifies this`emitted
      ensures Valid()
      ensures emitted == old(emitted) + [Encode(category.OrElse(selectedCategory), selectedRating, priceRange)]
      ensures emitted[|emitted| - 1] - {CategoryKey} == CurrentParams() - {CategoryKey}
      ensures CategoryKey in emitted[|emitted| - 1] <==> Truthy(category.OrElse(selectedCategory))
      ensures category == Some("") ==> CategoryKey !in emitted[|emitted| - 1]
      ensures category.None? ==> emitted[|emitted| - 1] == CurrentParams()
    {
      ApplyFilters(category, None, None);
      CategoryChangeKeepsRest(selectedCategory, category.OrElse(selectedCategory), selectedRating, priceRange);
    }

    /** `handleRatingChange`: a new rating floor with the current category and price range. */
    method HandleRatingChange(rating: int)
      requires Valid()
      modifies this`emitted
      ensures Valid()
      ensures emitted == old(emitted) + [Encode(selectedCategory, rating, priceRange)]
      ensures emitted[|emitted| - 1] - {RatingKey} == CurrentParams() - {RatingKey}
      ensures RatingKey in emitted[|emitted| - 1] <==> rating > 0
    {
      ApplyFilters(None, Some(rating), None);
      RatingChangeKeepsRest(selectedCategory, selectedRating, rating, priceRange);
    }

    /** `handlePriceChange`: the local range takes the slider's value at once and
        the value is emitted with the current category and rating. */
    method HandlePriceChange(value: PriceRange)
      requires Valid()
      modifies this`priceRange, this`emitted
      ensures Valid()
      ensures priceRange == value
      ensures emitted == old(emitted) + [Encode(selectedCategory, selectedRating, value)]
      ensures emitted[|emitted| - 1] == CurrentParams()
      ensures emitted[|emitted| - 1] - {MinPriceKey, MaxPriceKey}
           == old(CurrentParams()) - {MinPriceKey, MaxPriceKey}
    {
      priceRange := value;
      ApplyFilters(None, None, Some(value));
      PriceChangeKeepsRest(selectedCategory, selectedRating, old(priceRange), value);
    }

    /** `resetFilters`: the range returns to `[0, 2000]` and an empty parameter set is emitted. */
    method ResetFilters()
      requires Valid()
      modifies this`priceRange, this`emitted
      ensures Valid()
      ensures priceRange == DefaultPriceRange
      ensures emitted == old(emitted) + [map[]]
    {
      priceRange := DefaultPriceRange;
      emitted := emitted + [map[]];
    }

    /** A re-render with new props. The effect keyed on `[minPrice, maxPrice]`
        overwrites the local range when either bound differs from the previous
        render's; otherwise the local range is kept. Nothing is emitted. */
    method ReceiveProps(selectedCategory: Option<string>, minPrice: int, maxPrice: int, selectedRating: int)
      requires Valid()
      modifies this`selectedCategory, this`minPrice, this`maxPrice, this`selectedRating, this`priceRange
      ensures Valid()
      ensures this.selectedCategory == selectedCategory && this.selectedRating == selectedRating
      ensures this.minPrice == minPrice && this.maxPrice == maxPrice
      ensures (minPrice != old(this.minPrice) || maxPrice != old(this.maxPrice)) ==>
                priceRange == PriceRange(minPrice, maxPrice)
      ensures (minPrice == old(this.minPrice) && maxPrice == old(this.maxPrice)) ==>
                priceRange == old(priceRange)
    {
      var boundsChanged := minPrice != this.minPrice || maxPrice != this.maxPrice;
      this.selectedCategory := selectedCategory;
      this.minPrice := minPrice;
      this.maxPrice := maxPrice;
      this.selectedRating := selectedRating;
      if boundsChanged {
        priceRange := PriceRange(minPrice, maxPrice);
      }
    }
  }

  /** A shopper on category "shoes", price 50..300 picks 4 stars, then clears all. */
  method ShoesSession()
  {
    var sidebar := new ShopSidebar(Some("shoes"), 50, 300, 0);
    sidebar.HandleRatingChange(4);
    ShoesScenario();
    assert sidebar.emitted == [map[CategoryKey := "shoes", MinPriceKey := "50", MaxPriceKey := "300", RatingKey := "4"]];
    sidebar.ResetFilters();
    assert sidebar.priceRange == PriceRange(0, 2000);
    assert sidebar.emitted[1] == map[];
  }
}
