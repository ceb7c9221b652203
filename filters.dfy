/**
 * The product filter: the criteria the shopper sets, the one-pass predicate a
 * product must satisfy, the staged narrowing the storefront performs, and
 * the "on offer" count shown in the header.
 */
module Filters {
  import opened Wrappers
  import opened Seqs
  import opened Text
  import opened Catalog

  /** Upper end of the price slider. */
  const MAX_PRICE: int := 5000000

  /** Inclusive price bounds. */
  datatype PriceRange = PriceRange(min: int, max: int)

  datatype FiltersState = FiltersState(
    searchTerm: string,
    category: string,
    priceRange: PriceRange,
    stockOnly: bool)

  /** The criteria in force at start-up and after "clear filters". */
  const INITIAL_FILTERS: FiltersState := FiltersState("", "", PriceRange(0, MAX_PRICE), false)

  /** A `Partial<FiltersState>`: the fields present are the ones to overwrite. */
  datatype FiltersPatch = FiltersPatch(
    searchTerm: Option<string>,
    category: Option<string>,
    priceRange: Option<PriceRange>,
    stockOnly: Option<bool>)

  /** `{ ...prev, ...patch }`: each present field of the patch wins, the rest is kept. */
  function Merge(prev: FiltersState, patch: FiltersPatch): FiltersState {
    FiltersState(
      match patch.searchTerm case Some(v) => v case None => prev.searchTerm,
      match patch.category case Some(v) => v case None => prev.category,
      match patch.priceRange case Some(v) => v case None => prev.priceRange,
      match patch.stockOnly case Some(v) => v case None => prev.stockOnly)
  }

  /** The patch with no field present, `{}`. */
  const NO_CHANGES: FiltersPatch := FiltersPatch(None, None, None, None)

  /** The patch that carries every field of `f`. */
  function PatchOf(f: FiltersState): FiltersPatch {
    FiltersPatch(Some(f.searchTerm), Some(f.category), Some(f.priceRange), Some(f.stockOnly))
  }

  /** `later` if present, else `earlier`. */
  function Latest<T>(earlier: Option<T>, later: Option<T>): Option<T> {
    if later.Some? then later else earlier
  }

  /** `{ ...a, ...b }` of two patches. */
  function Then(a: FiltersPatch, b: FiltersPatch): FiltersPatch {
    FiltersPatch(Latest(a.searchTerm, b.searchTerm), Latest(a.category, b.category),
      Latest(a.priceRange, b.priceRange), Latest(a.stockOnly, b.stockOnly))
  }

  /** An empty patch keeps the criteria as they were. */
  lemma MergeNoChanges(prev: FiltersState)
    ensures Merge(prev, NO_CHANGES) == prev
  {
  }

  /** A patch carrying every field replaces the criteria outright, as `applyFilters` does. */
  lemma MergeWholePatch(prev: FiltersState, f: FiltersState)
    ensures Merge(prev, PatchOf(f)) == f
  {
  }

  /** Two patches applied in turn equal their combination applied once. */
  lemma MergeThen(prev: FiltersState, a: FiltersPatch, b: FiltersPatch)
    ensures Merge(Merge(prev, a), b) == Merge(prev, Then(a, b))
  {
  }

  /** Applying the same patch twice is applying it once. */
  lemma MergeIdempotent(prev: FiltersState, patch: FiltersPatch)
    ensures Merge(Merge(prev, patch), patch) == Merge(prev, patch)
  {
  }

  /** The lower-cased name, or the lower-cased non-empty summary, contains `lowerTerm`. */
  predicate SearchHit(p: Product, lowerTerm: string) {
    Contains(Lower(p.name), lowerTerm)
    || (p.summary.Some? && p.summary.value != [] && Contains(Lower(p.summary.value), lowerTerm))
  }

  predicate PassesSearch(p: Product, f: FiltersState) {
    f.searchTerm == [] || SearchHit(p, Lower(f.searchTerm))
  }

  predicate PassesCategory(p: Product, f: FiltersState) {
    f.category == [] || p.category == f.category
  }

  predicate PassesPrice(p: Product, f: FiltersState) {
    f.priceRange.min <= p.price <= f.priceRange.max
  }

  predicate PassesStock(p: Product, f: FiltersState) {
    !f.stockOnly || p.stock > 0
  }

  /** A product is shown exactly when it passes every criterion. */
  predicate Matches(p: Product, f: FiltersState) {
    PassesSearch(p, f) && PassesCategory(p, f) && PassesPrice(p, f) && PassesStock(p, f)
  }

  /** The first `n` of the four criteria, in the order the storefront applies them. */
  predicate PassesFirst(p: Product, f: FiltersState, n: nat) {
    (n < 1 || PassesSearch(p, f)) && (n < 2 || PassesCategory(p, f))
    && (n < 3 || PassesPrice(p, f)) && (n < 4 || PassesStock(p, f))
  }

  /** `Matches` with its criteria fixed, as a filter callback. */
  function MatchesOf(f: FiltersState): Product -> bool {
    (p: Product) => Matches(p, f)
  }

  /** `PassesFirst` with its criteria and stage fixed, as a filter callback. */
  function PassesFirstOf(f: FiltersState, n: nat): Product -> bool {
    (p: Product) => PassesFirst(p, f, n)
  }

  predicate InStock(p: Product) {
    p.stock > 0
  }

  /** The search term's case does not matter: it is lower-cased before it is looked for. */
  lemma SearchTermCaseIgnored(p: Product, f: FiltersState)
    ensures PassesSearch(p, f) == PassesSearch(p, f.(searchTerm := Lower(f.searchTerm)))
  {
    LowerIdempotent(f.searchTerm);
  }

  /** The case of the product's name and summary does not matter either. */
  lemma ProductCaseIgnored(p: Product, f: FiltersState)
    ensures PassesSearch(p, f) == PassesSearch(
      p.(name := Lower(p.name), summary := if p.summary.Some? then Some(Lower(p.summary.value)) else None), f)
  {
    LowerIdempotent(p.name);
    if p.summary.Some? {
      LowerIdempotent(p.summary.value);
    }
  }

  /** Reference definition of the filtered list: one stable pass with the whole predicate. */
  function Filtered(products: seq<Product>, f: FiltersState): seq<Product> {
    Filter(products, MatchesOf(f))
  }

  /**
   * The filtered list keeps exactly the products that pass every set criterion,
   * each as often as it occurs in the catalog, in catalog order.
   */
  lemma FilteredSpec(products: seq<Product>, f: FiltersState)
    ensures forall p :: p in Filtered(products, f) <==> p in products && Matches(p, f)
    ensures forall p :: multiset(Filtered(products, f))[p] == if Matches(p, f) then multiset(products)[p] else 0
    ensures IsSubsequence(Filtered(products, f), products)
  {
    FilterMembers(products, MatchesOf(f));
    FilterCounts(products, MatchesOf(f));
    FilterIsSubsequence(products, MatchesOf(f));
  }

  /**
   * `filterProducts`: starting from the whole catalog, narrow by search term,
   * category, price range and stock, each stage only when its criterion is set.
   */
  method FilterProducts(allProducts: seq<Product>, filters: FiltersState) returns (tempProducts: seq<Product>)
    ensures tempProducts == Filtered(allProducts, filters)
  {
    ghost var upTo0, upTo1, upTo2 := PassesFirstOf(filters, 0), PassesFirstOf(filters, 1), PassesFirstOf(filters, 2);
    ghost var upTo3, upTo4 := PassesFirstOf(filters, 3), PassesFirstOf(filters, 4);

    tempProducts := allProducts;
    FilterKeepsAll(allProducts, upTo0);

    if filters.searchTerm != [] {
      var lowerSearchTerm := Lower(filters.searchTerm);
      var hit := (p: Product) => SearchHit(p, lowerSearchTerm);
      FilterFuse(allProducts, upTo0, hit, upTo1);
      tempProducts := Filter(tempProducts, hit);
    } else {
      FilterExtensional(allProducts, upTo0, upTo1);
    }
    assert tempProducts == Filter(allProducts, upTo1);

    if filters.category != [] {
      var sameCategory := (p: Product) => p.category == filters.category;
      FilterFuse(allProducts, upTo1, sameCategory, upTo2);
      tempProducts := Filter(tempProducts, sameCategory);
    } else {
      FilterExtensional(allProducts, upTo1, upTo2);
    }
    assert tempProducts == Filter(allProducts, upTo2);

    var inRange := (p: Product) => p.price >= filters.priceRange.min && p.price <= filters.priceRange.max;
    FilterFuse(allProducts, upTo2, inRange, upTo3);
    tempProducts := Filter(tempProducts, inRange);
    assert tempProducts == Filter(allProducts, upTo3);

    if filters.stockOnly {
      var inStock := (p: Product) => p.stock > 0;
      FilterFuse(allProducts, upTo3, inStock, upTo4);
      tempProducts := Filter(tempProducts, inStock);
    } else {
      FilterExtensional(allProducts, upTo3, upTo4);
    }
    assert tempProducts == Filter(allProducts, upTo4);

    FilterExtensional(allProducts, upTo4, MatchesOf(filters));
  }

  /** Applying the same criteria to an already filtered list changes nothing. */
  lemma FilteredIdempotent(products: seq<Product>, f: FiltersState)
    ensures Filtered(Filtered(products, f), f) == Filtered(products, f)
  {
    FilterIdempotent(products, MatchesOf(f));
  }

  /** Every price lies on the price slider, `[0, MAX_PRICE]`. */
  predicate PricedWithinSlider(products: seq<Product>) {
    forall p :: p in products ==> 0 <= p.price <= MAX_PRICE
  }

  /** With the initial criteria, every product priced within the slider's range is shown, in order. */
  lemma InitialFiltersShowAll(products: seq<Product>)
    requires PricedWithinSlider(products)
    ensures Filtered(products, INITIAL_FILTERS) == products
  {
    FilterKeepsAll(products, MatchesOf(INITIAL_FILTERS));
  }

  /** Switching "in stock only" on removes exactly the out-of-stock products from the current list. */
  lemma StockOnlyNarrows(products: seq<Product>, f: FiltersState)
    requires !f.stockOnly
    ensures Filtered(products, f.(stockOnly := true)) == Filter(Filtered(products, f), InStock)
  {
    FilterFuse(products, MatchesOf(f), InStock, MatchesOf(f.(stockOnly := true)));
  }

  /** A catalog holding only an out-of-stock television shows nothing once "in stock only" is set. */
  lemma OutOfStockTelevisionHidden()
    ensures Filtered(
      [Product("1", "TV Samsung", None, "TELEVISOR", 1000, None, 0, [])],
      INITIAL_FILTERS.(stockOnly := true)) == []
  {
    var products := [Product("1", "TV Samsung", None, "TELEVISOR", 1000, None, 0, [])];
    FilterDropsAll(products, MatchesOf(INITIAL_FILTERS.(stockOnly := true)));
  }

  /** `p.old_price && p.old_price > p.price`: a present, non-zero old price above the price. */
  predicate OnOffer(p: Product) {
    p.oldPrice.Some? && p.oldPrice.value != 0 && p.oldPrice.value > p.price
  }

  /** `products.filter(OnOffer).length`. */
  function OnOfferCount(products: seq<Product>): (n: nat)
    ensures n <= |products|
    ensures n == 0 <==> forall p :: p in products ==> !OnOffer(p)
  {
    var offers := Filter(products, OnOffer);
    FilterMembers(products, OnOffer);
    assert offers != [] ==> offers[0] in offers;
    |offers|
  }

  /** The count of a catalog laid end to end is the sum of the two counts. */
  lemma OnOfferCountConcat(a: seq<Product>, b: seq<Product>)
    ensures OnOfferCount(a + b) == OnOfferCount(a) + OnOfferCount(b)
  {
    FilterConcat(a, b, OnOffer);
  }

  /** A single product counts 1 exactly when it is on offer. */
  lemma OnOfferCountSingle(p: Product)
    ensures OnOfferCount([p]) == if OnOffer(p) then 1 else 0
  {
  }
}
