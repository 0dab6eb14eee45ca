# ShopSidebar filter state, in Dafny

This project models the filter-state logic of the `ShopSidebar` component of a
product catalogue. The sidebar lets a shopper narrow the product list by
category, price range and minimum rating. It writes the selection into the URL
query through a `setSearchParams` callback. The rendering around that logic is
not modelled.

Three parts are modelled:

- **Category extraction** (`categories.dfy`, module `Categories`). The
  `categories` constant is the list of distinct `category` values of the fetched
  products, in first-seen order. It is empty while `data?.products` is absent.
  The sidebar lists it after `categories.sort()`. That sort puts `undefined`
  last and orders the other values as strings.
- **Filter encoding** (`filter_codec.dfy`, module `FilterCodec`). `Encode` is
  the parameter set that `applyFilters` writes for the category, rating and
  price range in use. The `category` key is written only for a truthy category.
  `minPrice` and `maxPrice` are always written. `rating` is written only for a
  positive rating. `decimal.dfy` (module `Decimal`) models `toString()` on
  integers and proves it injective.
- **Selection controller** (`sidebar.dfy`, class `Sidebar.ShopSidebar`). The
  class holds the props (`selectedCategory`, `minPrice`, `maxPrice`,
  `selectedRating`), the local `priceRange` state, and `emitted`, the log of
  every parameter set passed to `setSearchParams`. Its methods are
  `applyFilters`, the three change handlers, `resetFilters`, and the price-sync
  effect (as `ReceiveProps`, one re-render with new props).

An argument left `undefined` is `None` of `Options.Option`. The
`selectedCategory` prop is an `Option<string>` too, because the URL owner may
pass `null` or `undefined`. Prices are integers: the slider moves in steps of 10
between 0 and 2000.

Two behaviours of the code are kept:

- The category list keeps missing (`undefined`) and empty categories. The code
  does not filter them out.
- Prices and ratings are not range-checked. The model accepts any integer, as
  the code does.

A product without a category has `undefined` as its category. That value appears
as `None` in `ExtractCategories`. Rendering the list evaluates
`category.replace('-', ' ')` on every entry (src/js/sidebar.jsx:148), and on
`undefined` this throws. So no checkbox exists for that entry, and no user click
can reach it. The `category.None?` clause of `HandleCategoryChange` describes a
call the source never makes: `applyFilters(undefined)` would fall back to the
current category.

The method `Sidebar.ShoesSession` runs one session from start to end. A shopper on
category "shoes" with price 50..300 picks a 4-star floor, and the emitted parameters
are {category: shoes, minPrice: 50, maxPrice: 300, rating: 4}. The shopper then
clears all filters: the local range becomes [0, 2000] and `{}` is emitted.

## Model

| member | source | states |
|---|---|---|
| `Options.Option.GetOr` | src/js/sidebar.jsx:37-38 | a defined argument is used as given; an undefined one is replaced by the fallback (the current rating or price range) |
| `Options.Option.OrElse` | src/js/sidebar.jsx:36 | a defined category is used as given, `""` included; an undefined one is replaced by `selectedCategory` |
| `Decimal.NatToString` | src/js/sidebar.jsx:44-45 | the numeral of a natural number is non-empty and all digits; it starts with '0' only for 0; it is one digit exactly below 10 |
| `Decimal.IntToString` | src/js/sidebar.jsx:44-48 | the string form of an integer starts with '-' exactly when the integer is negative; otherwise it is all digits |
| `Decimal.IntToStringValue` | src/js/sidebar.jsx:44-48 | reading the string form back as a decimal numeral gives the original integer |
| `Decimal.IntToStringInjective` | src/js/sidebar.jsx:44-48 | two integers have the same string form exactly when they are equal |
| `Categories.Distinct` | src/js/sidebar.jsx:29 | `Array.from(new Set(xs))` has no duplicates and holds exactly the values that occur in `xs` |
| `Categories.DistinctKeepsFirstSeenOrder` | src/js/sidebar.jsx:29 | values appear in the result in the order of their first occurrence in the input |
| `Categories.CategoryColumn` | src/js/sidebar.jsx:29 | `products.map(p => p.category)` has one entry per product, each that product's category |
| `Categories.ExtractCategories` | src/js/sidebar.jsx:28-30 | with no data or no `products`, the list is empty; otherwise it has no duplicates and holds exactly the categories of the products, missing and empty ones included |
| `Categories.StrLeTotal` | src/js/sidebar.jsx:137 | any two strings are comparable in the sort order |
| `Categories.StrLeAntisymmetric` | src/js/sidebar.jsx:137 | strings ordered both ways are equal |
| `Categories.StrLeTransitive` | src/js/sidebar.jsx:137 | the string order is transitive |
| `Categories.Insert` | src/js/sidebar.jsx:137 | inserting into a sorted list gives a sorted list with that one element added |
| `Categories.SortForDisplay` | src/js/sidebar.jsx:137 | `sort()` gives a sorted list (strings ascending, `undefined` last) with the same elements and multiplicities |
| `Categories.DisplayedCategories` | src/js/sidebar.jsx:137 | the rendered list `categories.sort()` is sorted (strings ascending, `undefined` last) and holds the extracted categories with the same multiplicities |
| `Categories.DisplayedCategoriesAscending` | src/js/sidebar.jsx:137 | the rendered list is strictly ascending, has the same length as the extracted list and holds the same categories |
| `Categories.ShoesAndBagsScenario` | src/js/sidebar.jsx:28-30 | products shoes, bags, shoes extract to [shoes, bags] and are displayed as [bags, shoes] |
| `FilterCodec.Truthy` | src/js/sidebar.jsx:40 | `if (categoryToUse)`: `undefined`/`null` and `""` are falsy; every other string is truthy |
| `FilterCodec.Encode` | src/js/sidebar.jsx:34-50 | keys are among category/minPrice/maxPrice/rating; `category` is present iff the category is truthy, with it verbatim; `minPrice`/`maxPrice` are always the string forms of the range's two ends; `rating` is present iff the rating is positive, with its string form |
| `FilterCodec.EncodeWellFormed` | src/js/sidebar.jsx:34-50 | every encoding is a well-formed, non-empty parameter set |
| `FilterCodec.EncodeDistinguishesMeaning` | src/js/sidebar.jsx:40-49 | two selections encode alike exactly when they agree on truthy category, positive rating and both price ends |
| `FilterCodec.CategoryChangeKeepsRest` | src/js/sidebar.jsx:36-45 | changing the category changes no key except `category` |
| `FilterCodec.RatingChangeKeepsRest` | src/js/sidebar.jsx:37-49 | changing the rating changes no key except `rating` |
| `FilterCodec.PriceChangeKeepsRest` | src/js/sidebar.jsx:38-45 | changing the price range changes no key except `minPrice` and `maxPrice` |
| `FilterCodec.ShoesScenario` | src/js/sidebar.jsx:40-49 | shoes, 50..300, rating 0 encodes to {category: shoes, minPrice: 50, maxPrice: 300}; with rating 4, `rating: "4"` is added |
| `Sidebar.ShopSidebar.CurrentParams` | src/js/sidebar.jsx:36-45 | the current selection's encoding carries the local price range |
| `Sidebar.ShopSidebar.constructor` | src/js/sidebar.jsx:19 | local price state starts as [minPrice, maxPrice] and nothing has been emitted |
| `Sidebar.ShopSidebar.ApplyFilters` | src/js/sidebar.jsx:33-52 | exactly one parameter set is emitted: the encoding of each given argument, with the current selection for each undefined one |
| `Sidebar.ShopSidebar.HandleCategoryChange` | src/js/sidebar.jsx:55-57 | the emitted set differs from the current selection's only in `category`; "" removes `category`; an undefined category re-emits the current selection |
| `Sidebar.ShopSidebar.HandleRatingChange` | src/js/sidebar.jsx:60-62 | the emitted set differs from the current selection's only in `rating`, which is present iff the new rating is positive |
| `Sidebar.ShopSidebar.HandlePriceChange` | src/js/sidebar.jsx:65-69 | the local range becomes the new value; the emitted set takes both price keys from it and keeps category and rating |
| `Sidebar.ShopSidebar.ResetFilters` | src/js/sidebar.jsx:72-75 | the local range becomes [0, 2000] and an empty parameter set is emitted |
| `Sidebar.ShopSidebar.ReceiveProps` | src/js/sidebar.jsx:78-80 | the props are replaced; when either price bound changed, the local range becomes [minPrice, maxPrice], otherwise it is kept; nothing is emitted |

## Left out

- Rendering: the JSX, styling, and the Slider, Checkbox, Collapsible, ScrollArea and Button components (src/js/sidebar.jsx:87-225). They are presentational and their code is not part of this model.
- `isMobileSidebarOpen` and `toggleMobileSidebar` (src/js/sidebar.jsx:22, 83-85). They only toggle visibility.
- Label formatting (`category.replace('-', ' ')`, star counts). It is display only. On a missing category, `replace` would fail while rendering; rendering is not modelled.
- `useGetAllProductsQuery` (src/js/sidebar.jsx:25) is a network query. Its result is the input `data` of `Categories.ExtractCategories`.
- React scheduling: batching of state updates and when effects run. Each handler is one atomic step, and the effect is the explicit step `ShopSidebar.ReceiveProps`.
- `URLSearchParams` serialisation and key order. Parameters are a `map<string, string>`, and the URL owner parses them, outside this component.
- `Categories.StrLeTotal`: the order compares Unicode code points, while JavaScript compares UTF-16 code units. The two orders differ only for characters above U+FFFF.
- `Categories.ExtractCategories`: a category of `null` is not told apart from a missing one. The sort would place `null` as the string "null".
- `Decimal.IntToString`: exponent notation, used by JavaScript for magnitudes of 10^21 and above, is not modelled. Fractional prices are also not modelled.
- `Sidebar.ShopSidebar.ReceiveProps`: price bounds are compared as integers. `Object.is` on `NaN` and `-0` is not modelled.
