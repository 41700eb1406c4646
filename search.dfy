/**
 * The catalogue filter: a product is listed when it passes the category,
 * brand, availability, text-query and price-ceiling conditions; the result
 * keeps catalogue order.
 */
module Search {
  import opened Wrappers
  import opened Strings
  import opened Catalogue
  import opened Shipping
  import opened Selector

  /** The category menu: every category ("Tutte") or exactly one. */
  datatype CategoryFilter = AnyCategory | OnlyCategory(category: Category)

  /** The brand menu's entry that stands for every brand. */
  const AnyBrand := "Tutti"

  /** The page's filter and destination inputs; `priceMax` is in whole euros, as the number input gives it. */
  datatype Filters = Filters(
    query: string,
    category: CategoryFilter,
    brand: string,
    inStockOnly: bool,
    priceMax: int,
    country: string,
    zip: string)

  /** The state the page starts in. */
  const InitialFilters := Filters("", AnyCategory, AnyBrand, false, 800, "IT", "")

  /** Some offer of the product is available (`offers.some(o => o.in_stock)`). */
  predicate AnyInStock(offers: seq<Offer>) {
    exists o :: o in offers && o.inStock
  }

  /**
   * The text the query is matched against: brand, name and variant separated
   * by single spaces, with an absent variant read as empty. Each field can be
   * found at its place in it.
   */
  function SearchText(p: Product): (text: string)
    ensures |text| == |p.brand| + |p.name| + |p.variant.GetOr("")| + 2
    ensures OccursAt(text, p.brand, 0)
    ensures OccursAt(text, p.name, |p.brand| + 1)
    ensures OccursAt(text, p.variant.GetOr(""), |p.brand| + |p.name| + 2)
    ensures text[|p.brand|] == ' ' && text[|p.brand| + |p.name| + 1] == ' '
  {
    var text := p.brand + " " + p.name + " " + p.variant.GetOr("");
    assert text[..|p.brand|] == p.brand;
    assert text[|p.brand| + 1..|p.brand| + 1 + |p.name|] == p.name;
    assert text[|p.brand| + |p.name| + 2..] == p.variant.GetOr("");
    text
  }

  /** The category test: every category passes "Tutte"; otherwise only the chosen one. */
  predicate CategoryOk(p: Product, f: Filters): (ok: bool)
    ensures f.category.AnyCategory? ==> ok
    ensures f.category.OnlyCategory? ==> (ok <==> p.category == f.category.category)
  {
    f.category.AnyCategory? || p.category == f.category.category
  }

  /** The brand test: every brand passes "Tutti"; otherwise only the chosen one. */
  predicate BrandOk(p: Product, f: Filters): (ok: bool)
    ensures f.brand == AnyBrand ==> ok
    ensures f.brand != AnyBrand ==> (ok <==> p.brand == f.brand)
  {
    f.brand == AnyBrand || p.brand == f.brand
  }

  /** The availability test: when asked for, some offer must be in stock. */
  predicate StockOk(p: Product, f: Filters): (ok: bool)
    ensures ok <==> !f.inStockOnly || exists i :: 0 <= i < |p.offers| && p.offers[i].inStock
  {
    assert forall o :: o in p.offers <==> exists i :: 0 <= i < |p.offers| && p.offers[i] == o;
    !f.inStockOnly || AnyInStock(p.offers)
  }

  /** The query test: an empty query passes; otherwise it must occur in the search text, ignoring ASCII case. */
  predicate QueryOk(p: Product, f: Filters): (ok: bool)
    ensures ok <==> f.query == "" || exists i :: OccursAt(ToLower(SearchText(p)), ToLower(f.query), i)
  {
    f.query == "" || Contains(ToLower(SearchText(p)), ToLower(f.query))
  }

  /** The price test: some offer's landed total, in cents, is within the ceiling in whole euros. */
  predicate PriceOk(p: Product, f: Filters): (ok: bool)
    requires |p.offers| > 0
    ensures ok <==> exists o :: o in p.offers && Enrich(o, f.country, Some(f.zip)).total <= f.priceMax * 100
  {
    BestOfferWithin(p, f.country, Some(f.zip), f.priceMax * 100);
    BestOffer(p, f.country, Some(f.zip)).total <= f.priceMax * 100
  }

  /** The four tests the page runs before it looks for the best offer. */
  predicate BeforePrice(p: Product, f: Filters) {
    CategoryOk(p, f) && BrandOk(p, f) && StockOk(p, f) && QueryOk(p, f)
  }

  /**
   * The page reads the best offer only of a product that passed the first four
   * tests; such a product must have an offer (otherwise `enriched[0]` is
   * undefined and reading its total fails).
   */
  predicate PriceReachable(p: Product, f: Filters) {
    BeforePrice(p, f) ==> |p.offers| > 0
  }

  /** The filter predicate of the result list: all five conditions, tested in the page's order. */
  predicate Matches(p: Product, f: Filters): (ok: bool)
    requires PriceReachable(p, f)
    ensures ok <==>
      && (f.category.OnlyCategory? ==> p.category == f.category.category)
      && (f.brand != AnyBrand ==> p.brand == f.brand)
      && (f.inStockOnly ==> exists i :: 0 <= i < |p.offers| && p.offers[i].inStock)
      && (f.query != "" ==> exists i :: OccursAt(ToLower(SearchText(p)), ToLower(f.query), i))
      && exists o :: o in p.offers && Enrich(o, f.country, Some(f.zip)).total <= f.priceMax * 100
  {
    BeforePrice(p, f) && PriceOk(p, f)
  }

  /** A catalogue in which every product has an offer can be filtered with any inputs. */
  lemma WellFormedReachable(products: seq<Product>, f: Filters)
    requires WellFormed(products)
    ensures forall p :: p in products ==> PriceReachable(p, f)
  {
  }

  /** `PRODUCTS.filter(matches)`: the matching products in catalogue order. */
  function Results(products: seq<Product>, f: Filters): (r: seq<Product>)
    requires forall p :: p in products ==> PriceReachable(p, f)
    ensures forall p :: p in r <==> p in products && Matches(p, f)
    ensures |r| <= |products|
  {
    if |products| == 0 then []
    else
      var rest := Results(products[1..], f);
      assert forall p :: p in products <==> p == products[0] || p in products[1..];
      (if Matches(products[0], f) then [products[0]] else []) + rest
  }

  /** A product that fails one of the first four tests is left out, whether or not it has offers. */
  lemma RejectedBeforePrice(products: seq<Product>, f: Filters, p: Product)
    requires forall q :: q in products ==> PriceReachable(q, f)
    requires !BeforePrice(p, f)
    ensures p !in Results(products, f)
  {
  }

  /** Filtering a concatenation filters each part and keeps their order. */
  lemma {:induction false} ResultsConcat(a: seq<Product>, b: seq<Product>, f: Filters)
    requires forall p :: p in a ==> PriceReachable(p, f)
    requires forall p :: p in b ==> PriceReachable(p, f)
    ensures Results(a + b, f) == Results(a, f) + Results(b, f)
  {
    if |a| == 0 {
      assert a + b == b;
    } else {
      assert (a + b)[0] == a[0] && (a + b)[1..] == a[1..] + b;
      ResultsConcat(a[1..], b, f);
    }
  }

  /** Filtering the result again removes nothing. */
  lemma {:induction false} ResultsIdempotent(products: seq<Product>, f: Filters)
    requires forall p :: p in products ==> PriceReachable(p, f)
    ensures Results(Results(products, f), f) == Results(products, f)
  {
    if |products| > 0 {
      var head := if Matches(products[0], f) then [products[0]] else [];
      var rest := Results(products[1..], f);
      ResultsIdempotent(products[1..], f);
      ResultsConcat(head, rest, f);
      if head != [] {
        assert head[1..] == [];
      }
    }
  }

  /** An offer whose price leaves room for the largest fee keeps the product under the ceiling. */
  lemma CheapOfferPasses(p: Product, f: Filters, k: int)
    requires |p.offers| > 0 && 0 <= k < |p.offers|
    requires p.offers[k].price + MaxFee <= f.priceMax * 100
    ensures PriceOk(p, f)
  {
    assert p.offers[k] in p.offers;
  }

  /** When every product matches, the filter keeps the list as it is. */
  lemma {:induction false} ResultsAllMatch(products: seq<Product>, f: Filters)
    requires forall p :: p in products ==> PriceReachable(p, f) && Matches(p, f)
    ensures Results(products, f) == products
  {
    if |products| > 0 {
      ResultsAllMatch(products[1..], f);
    }
  }

  /** With the initial filters (no query, every category and brand, 800 EUR) the whole catalogue is listed. */
  lemma InitialResultsAreCatalogue()
    ensures Results(Products, InitialFilters) == Products
  {
    ProductsWellFormed();
    var f := InitialFilters;
    WellFormedReachable(Products, f);
    forall i | 0 <= i < |Products| ensures Matches(Products[i], f) {
      CheapOfferPasses(Products[i], f, 0);
    }
    ResultsAllMatch(Products, f);
  }
}
