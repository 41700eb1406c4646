# Subfinder catalogue page — a Dafny model

Subfinder is a single web page for browsing a hard-coded catalogue of scuba-diving equipment. All of its logic is in `app/page.tsx`. The page does five things:

- It estimates shipping per merchant and destination.
- It picks each product's best offer, meaning the lowest landed total (price plus shipping).
- It filters the catalogue by category, brand, availability, a text query and a price ceiling.
- It keeps a comparison list that holds at most four products.
- It builds the attribute rows of the comparison table.

This project models those rules in Dafny and proves what they promise.

Money is held as integer euro cents. For example, 14.99 EUR is `1499` and the remote surcharge of 3.00 EUR is `300`. The shipping rule table is a constant `map` keyed by (merchant, country). Each rule has a `base` fee and an optional `freeOver` threshold.

Modules (one file each):

- `Wrappers` (`wrappers.dfy`): `Option`.
- `Strings` (`strings.dfy`): the anchored prefix test, `includes` and ASCII `toLowerCase`.
- `Distinct` (`distinct.dfy`): `Array.from(new Set(xs))`, which gives the distinct elements in order of first occurrence.
- `Catalogue` (`catalogue.dfy`): the `Offer` and `Product` records, the four-product catalogue and the brand menu.
- `Shipping` (`shipping.dfy`): `estimateShipping` and its rule table.
- `Selector` (`selector.dfy`): `bestOfferWithShipping`. This module models the enrichment of the offers, the stable in-place sort of the fresh `enriched` array and taking its first element.
- `Search` (`search.dfy`): the `PRODUCTS.filter` predicate and its result list.
- `Compare` (`compare.dfy`): `toggleCompare` and the union of spec keys for the comparison table.

`bestOfferWithShipping` is modelled twice:

- The pure function `Selector.BestOffer` is the head of `SortByTotal`. `SortByTotal` is a stable insertion sort on sequences, and it is proved sorted, a permutation of its input and stable.
- The method `Selector.BestOfferWithShipping` is what the page runs. It fills a fresh array, sorts it in place with `SortInPlace` and returns element 0. `SortInPlace` is proved to leave exactly `SortByTotal` of the old contents in the array.

Sorted, permutation and stable together fix the output of any stable sort. So the result does not depend on which stable algorithm the JavaScript engine uses. The best offer is proved to be the first cheapest enriched offer: no offer has a lower total, and every earlier offer has a strictly higher one.

`toggleCompare` passes a pure updater from the previous list to the next one, and the model makes it the pure function `Compare.Toggle`. The setter and the React state around it are UI plumbing.

Two consequences of the code that are easy to misread:

- The surcharge test looks only at the first two characters (`/^(97|98|99)/`), whatever the postal code's length. `Shipping.IsRemote` states this.
- For the first product shipped to IT without a postal code, SubShop ships free from 120.00, so its total is 499.00. DiveInn at 489.90 still wins. `ScenarioApeksBestOffer` proves this.

## Model

| member | source | states |
|---|---|---|
| `Shipping.EstimateShipping` | app/page.tsx:86-98 | the fee is between 0 and the largest base plus the surcharge; a lane without a rule costs exactly 14.99; the fee is 0 exactly when the lane has a rule whose threshold is defined and reached |
| `Shipping.RulesWellFormed` | app/page.tsx:87-92 | every rule in the table has a positive base of at most 24.99 and, if it has a threshold, a positive one, so JavaScript truthiness on `free_over` and "threshold present" agree |
| `Shipping.IsRemote` | app/page.tsx:96 | a postal code is remote exactly when it is present, has at least two characters, and begins with `9` followed by `7`, `8` or `9`; later characters do not matter |
| `Shipping.FallbackIgnoresOrder` | app/page.tsx:93-94 | for a lane without a rule, any two subtotals and postal codes give the same fee, 14.99 |
| `Shipping.FreeShippingIgnoresPostalCode` | app/page.tsx:95 | once the threshold is reached the fee is 0 and a remote postal code adds no surcharge |
| `Shipping.PaidShippingIsBasePlusSurcharge` | app/page.tsx:96-97 | below the threshold or with none, the fee is the base plus 3.00 exactly for a remote code; with no postal code it is the base |
| `Shipping.PostalCodeEffect` | app/page.tsx:95-97 | the postal code changes the fee by 0 or by exactly 3.00, and by 3.00 exactly when the code is remote, the lane has a rule and the threshold is not reached |
| `Shipping.ShippingNonIncreasing` | app/page.tsx:95-97 | a larger subtotal never costs more shipping on the same lane and postal code |
| `Shipping.ScenarioDiveInnFree` | app/page.tsx:88 | DiveInn to IT at 200.00 with no postal code ships free |
| `Shipping.ScenarioLeisureProRemote` | app/page.tsx:89 | LeisurePro to IT at 50.00 with postal code 98100 costs 27.99 |
| `Shipping.ScenarioUnknownLane` | app/page.tsx:93-94 | an unknown merchant to FR costs 14.99 |
| `Selector.Enrich` | app/page.tsx:101-105 | an enriched offer keeps the offer, its shipping is the estimate for the offer's own price, shipping is non-negative and total = price + shipping >= price |
| `Selector.EnrichAll` | app/page.tsx:101-105 | one enriched entry per offer, in offer order |
| `Selector.SortByTotal` | app/page.tsx:106 | the sorted list has the input's length |
| `Selector.SortByTotalSorted` | app/page.tsx:106 | the sorted list is ascending by total |
| `Selector.SortByTotalPermutes` | app/page.tsx:106 | the sorted list is a permutation of the input |
| `Selector.SortByTotalStable` | app/page.tsx:106 | for every total, the entries with that total keep their input order |
| `Selector.InsertByTotalStable` | app/page.tsx:106 | one insertion keeps, for every total, the entries with that total in order, the inserted one last |
| `Selector.FirstCheapest` | app/page.tsx:106-107 | the index found has the least total and every earlier entry costs strictly more |
| `Selector.FirstCheapestUnique` | app/page.tsx:106-107 | at most one index is first cheapest, so the best offer is determined by its inputs |
| `Selector.SortByTotalHead` | app/page.tsx:106-107 | the first element of the stable sort is the first cheapest element of the input |
| `Selector.BestOffer` | app/page.tsx:100-108 | for a product with offers, the best offer is the enriched form of one of its offers; no offer has a lower landed total; every earlier offer has a strictly higher one |
| `Selector.BestOfferIsFirstCheapest` | app/page.tsx:100-108 | the best offer is the first cheapest entry of the enriched list |
| `Selector.BestOfferWithin` | app/page.tsx:100-108 | the best offer's total is within a ceiling exactly when some offer's landed total is |
| `Selector.SortInPlace` | app/page.tsx:106 | sorting the array in place leaves exactly the stable sort of its old contents |
| `Selector.InsertInPlace` | app/page.tsx:106 | one insertion step leaves in `a[..i + 1]` exactly the stable insertion of the old `a[i]` into the old `a[..i]`, and leaves the rest of the array alone |
| `Selector.InsertAt` | app/page.tsx:106 | inserting after the entries at most as dear and before the dearer ones is the stable insertion |
| `Selector.SortByTotalSnoc` | app/page.tsx:106 | sorting one more input element is inserting it into the sorted prefix |
| `Selector.BestOfferWithShipping` | app/page.tsx:100-108 | the array-based selector returns exactly `BestOffer`, whose total is at most that of every offer |
| `Selector.ScenarioApeksBestOffer` | app/page.tsx:37-41 | for the first catalogue product shipped to IT with no postal code, the best offer is DiveInn at 489.90 with no shipping |
| `Catalogue.ProductsWellFormed` | app/page.tsx:28-80 | every catalogue product has an offer and no two products share an id |
| `Catalogue.BrandsOf` | app/page.tsx:120 | one brand per product, in catalogue order |
| `Catalogue.Brands` | app/page.tsx:120 | the brand menu lists each product's brand, only those, and none twice |
| `Search.SearchText` | app/page.tsx:128 | the search text is brand, space, name, space, variant (empty when absent): each field occurs at its place and the length is their sum plus two |
| `Search.CategoryOk` | app/page.tsx:123 | "Tutte" passes every product; a chosen category passes exactly the products of that category |
| `Search.BrandOk` | app/page.tsx:124 | "Tutti" passes every product; a chosen brand passes exactly the products of that brand |
| `Search.StockOk` | app/page.tsx:125 | the test passes exactly when availability is not asked for or some offer is in stock |
| `Search.QueryOk` | app/page.tsx:126-130 | an empty query passes; otherwise the lower-cased query occurs at some position of the lower-cased search text |
| `Search.PriceOk` | app/page.tsx:131-132 | the price ceiling is met exactly when some offer's landed total is within it |
| `Search.Matches` | app/page.tsx:122-134 | a product matches exactly when it passes the category, brand, availability, query and price conditions, each spelled out |
| `Search.WellFormedReachable` | app/page.tsx:131 | in a catalogue where every product has an offer, the best offer can be read for every product |
| `Search.RejectedBeforePrice` | app/page.tsx:123-130 | a product failing one of the first four tests is not listed, whether or not it has offers |
| `Search.Results` | app/page.tsx:122-134 | a product is in the result exactly when it is in the catalogue and passes all five conditions; the result is no longer than the catalogue |
| `Search.ResultsConcat` | app/page.tsx:122-134 | filtering a concatenation is the concatenation of the filtered parts, so catalogue order is kept |
| `Search.ResultsIdempotent` | app/page.tsx:122-134 | filtering the result again removes nothing |
| `Search.ResultsAllMatch` | app/page.tsx:122-134 | when every product matches, the result is the catalogue itself |
| `Search.CheapOfferPasses` | app/page.tsx:131-132 | an offer whose price plus the largest possible fee is within the ceiling lets the product pass the price condition |
| `Search.InitialResultsAreCatalogue` | app/page.tsx:111-135 | with the page's initial filters (no query, all categories and brands, 800 EUR, IT) all four products are listed |
| `Strings.Contains` | app/page.tsx:129 | `includes` is true exactly when the pattern occurs at some position |
| `Strings.LowerChar` | app/page.tsx:127-128 | lower-casing maps each upper-case ASCII letter 32 code points up to its lower-case letter, leaves no upper-case ASCII letter and changes nothing else |
| `Strings.ToLower` | app/page.tsx:127-128 | a string is lower-cased character by character, keeping its length |
| `Compare.RemoveId` | app/page.tsx:140 | removal keeps exactly the entries with another id, drops at least one when the id is present, and leaves none with that id |
| `Compare.RemoveIdConcat` | app/page.tsx:140 | removal on a concatenation is the concatenation of the removals, so the kept entries stay in their order |
| `Compare.RemoveIdSingleton` | app/page.tsx:140 | one entry is dropped when it has the id and kept otherwise |
| `Compare.RemoveAbsentId` | app/page.tsx:140 | removing an id that no entry has leaves the list as it is |
| `Compare.RemoveIdAt` | app/page.tsx:140 | when only entry `k` has the id, removal gives the entries before `k` followed by those after it |
| `Compare.RemoveIdDistinct` | app/page.tsx:140 | removal keeps ids distinct |
| `Compare.RemoveIdAppend` | app/page.tsx:140 | removing the id of an appended product that was not present gives back the original list |
| `Compare.Toggle` | app/page.tsx:137-144 | after a toggle the id is in the list exactly when it was absent and fewer than 4 were selected; other entries are neither lost nor added; a present id is filtered out; an absent product is appended when there is room, otherwise the list is unchanged |
| `Compare.ToggleRemoves` | app/page.tsx:139-140 | in a list with distinct ids, toggling the product at position `k` gives the entries before `k` followed by those after it, in order, one fewer |
| `Compare.ToggleKeepsValid` | app/page.tsx:137-144 | a list of at most 4 products with distinct ids stays so after any toggle |
| `Compare.ToggleTwiceRestores` | app/page.tsx:137-144 | adding a product and toggling it again gives back the original list |
| `Compare.SpecKeys` | app/page.tsx:268 | a product's attribute names in record order |
| `Compare.AllSpecKeys` | app/page.tsx:268 | the flattened key list holds exactly the attribute names of the compared products |
| `Compare.AllSpecKeysConcat` | app/page.tsx:268 | flattening a concatenation concatenates the flattened parts, so products contribute keys in list order |
| `Compare.AllSpecKeysSingleton` | app/page.tsx:268 | one product contributes its own keys in record order |
| `Compare.SpecKeyUnion` | app/page.tsx:268 | the table rows are exactly the attribute names of the compared products, none twice |
| `Compare.SpecKeyUnionOrder` | app/page.tsx:268 | the rows appear in the order of each name's first occurrence in the flattened key list |
| `Compare.ScenarioRegulatorRows` | app/page.tsx:35-49 | comparing the two regulators gives the rows Bilanciato, Porte_HP, Porte_LP, Peso_g |
| `Distinct.Unique` | app/page.tsx:268 | the deduplicated list has no repeats, the same elements and is no longer than the input |
| `Distinct.UniqueFirstOccurrenceOrder` | app/page.tsx:268 | deduplication orders elements by their first occurrence |
| `Distinct.UniqueIdempotent` | app/page.tsx:268 | deduplicating twice changes nothing |
| `Distinct.UniqueOfDistinct` | app/page.tsx:268 | a list without repeats is its own deduplication |
| `Distinct.UniqueAppendSeen` | app/page.tsx:268 | appending only elements already seen does not change the deduplication |
| `Distinct.FirstIndex` | app/page.tsx:268 | the first-occurrence index holds the element and no earlier position does |

## Left out

- Rendering, React hooks (`useState`, `useMemo`), event handlers and `location.reload` (app/page.tsx:110-292) are UI plumbing. The exceptions are the filter predicate, the toggle updater and the spec-key union. The page's state becomes explicit parameters (`Search.Filters`, the `prev` list of `Toggle`).
- The table cells `p.specs[key] ?? "–"` and the best-total row of the comparison table (app/page.tsx:271-279) are rendering of values the model already computes.
- `eur` (app/page.tsx:82-84) formats through `Intl.NumberFormat`, a foreign library.
- The postal-code input sanitiser (app/page.tsx:204) is input wiring. Its regex `/\\D/g` removes a literal backslash followed by `D`, not non-digits. So the estimator is modelled for any string and looks only at its prefix.
- Floating-point arithmetic on prices is replaced by exact integer cents. Rounding such as `475.0 + 24.99` is not modelled.
- `Selector.BestOffer` and `Selector.BestOfferWithShipping` require at least one offer. The source reads `enriched[0]` as `undefined` in that case, and the page would then fail on `best.total`. The page reads the best offer only of a product that passed the first four tests. So `Search.Matches` and `Search.Results` require an offer only of such products (`Search.PriceReachable`). `Search.RejectedBeforePrice` shows that the others are simply left out. `Catalogue.ProductsWellFormed` proves that every product of the built-in catalogue has an offer.
- `EstimateShipping`: the lookup `rules[merchant]?.[country]` also finds keys inherited from `Object.prototype`. For example, country `constructor` returns a function, and the fee becomes `NaN`. The model returns 14.99 for every lane not in the table. The page's country menu offers only IT, FR and DE, so none of these keys is reachable from it.
- A threshold of 0 would count as "no threshold" under JavaScript truthiness. The model uses `Option` for the threshold, and `Shipping.RulesWellFormed` proves that no threshold in the table is 0.
- `toLowerCase` is modelled on the ASCII letters only. Unicode case mapping is not modelled.
- `Object.keys` lists integer-like keys first, in ascending order. The model lists keys in record order, which is the same for every key in the catalogue.
- `parseInt` on the price field can yield `NaN`. The model takes the ceiling as an integer number of euros.
- The engine's own sorting algorithm is not modelled. The model proves the properties that fix the output of any stable sort (sorted, permutation, stable).
- app/layout.tsx holds only static metadata and the HTML shell.
